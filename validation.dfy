/** Outcome of a request-schema field validator: the (possibly normalised)
    value it returns, or the message of the ValueError it raises. */
module Validation {

  datatype Checked<+T> = Accepted(value: T) | Rejected(message: string)

  /** Python's `Optional[...]`: a value or `None`. */
  datatype Option<+T> = None | Some(value: T)

  /** ASCII letters and digits: the part of Python's `isalnum` this model covers. */
  predicate IsAlnumChar(c: char)
  {
    ('a' <= c <= 'z') || ('A' <= c <= 'Z') || ('0' <= c <= '9')
  }

  predicate IsDigitChar(c: char)
  {
    '0' <= c <= '9'
  }

  /** Python `str.isalnum()`: non-empty and every character alphanumeric. */
  predicate IsAlnum(s: string)
  {
    |s| > 0 && forall c | c in s :: IsAlnumChar(c)
  }

  /** Python `str.isnumeric()` on ASCII: non-empty and every character a digit. */
  predicate IsNumeric(s: string)
  {
    |s| > 0 && forall c | c in s :: IsDigitChar(c)
  }

  predicate IsSeparator(c: char)
  {
    c == ' ' || c == '-' || c == '_'
  }

  /** `v.replace(' ', '').replace('-', '').replace('_', '')`. */
  function StripSeparators(s: string): (r: string)
    ensures |r| <= |s|
    ensures forall c | c in r :: c in s && !IsSeparator(c)
  {
    if s == [] then []
    else if IsSeparator(s[0]) then StripSeparators(s[1..])
    else [s[0]] + StripSeparators(s[1..])
  }

  /** The characters a name may use: letters, digits and the three separators. */
  predicate NameChar(c: char)
  {
    IsAlnumChar(c) || IsSeparator(c)
  }

  /** Stripping keeps every character that is not a separator. */
  lemma {:induction false} StripKeeps(s: string, c: char)
    requires c in s && !IsSeparator(c)
    ensures c in StripSeparators(s)
  {
    if s[0] != c {
      StripKeeps(s[1..], c);
    }
  }

  /** Removing the separators leaves a non-empty alphanumeric string exactly
      when the name uses only letters, digits and separators and holds at
      least one letter or digit. */
  lemma StrippedIsAlnumIff(s: string)
    ensures IsAlnum(StripSeparators(s)) <==>
            (forall c | c in s :: NameChar(c)) && (exists c :: c in s && IsAlnumChar(c))
  {
    var r := StripSeparators(s);
    if forall c | c in s :: NameChar(c) {
      if exists c :: c in s && IsAlnumChar(c) {
        var c :| c in s && IsAlnumChar(c);
        StripKeeps(s, c);
      }
    }
    if IsAlnum(r) {
      forall c | c in s ensures NameChar(c) {
        if !IsSeparator(c) { StripKeeps(s, c); }
      }
      assert r[0] in r;
    }
  }
}
