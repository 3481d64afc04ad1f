/** Field validators of the team-registration request (`RegisterTeamRequest`). */
module TeamSchema {
  import opened Validation

  const MaxTeamNameLength := 50

  /** `validate_team_name`: the checks run in order, and an accepted name is returned as given. */
  function ValidateTeamName(v: string): (r: Checked<string>)
    ensures |v| == 0 ==> r == Rejected("Team name cannot be empty")
    ensures |v| > MaxTeamNameLength ==> r == Rejected("Team name is too long (max 50 characters)")
    ensures r.Accepted? <==>
              1 <= |v| <= MaxTeamNameLength &&
              (forall c | c in v :: NameChar(c)) && (exists c :: c in v && IsAlnumChar(c))
    ensures r.Accepted? ==> r.value == v
    ensures (forall c | c in v :: IsSeparator(c)) ==> r.Rejected?
  {
    StrippedIsAlnumIff(v);
    if |v| == 0 then Rejected("Team name cannot be empty")
    else if |v| > MaxTeamNameLength then Rejected("Team name is too long (max 50 characters)")
    else if !IsAlnum(StripSeparators(v)) then
      Rejected("Team name can only contain alphanumeric characters, underscores, hyphens and spaces")
    else Accepted(v)
  }

  /** Days of each month in 1972, a leap year. */
  function DaysInMonth1972(month: int): (d: int)
    requires 1 <= month <= 12
    ensures 29 <= d <= 31
    ensures d == 29 <==> month == 2
  {
    if month == 2 then 29
    else if month == 4 || month == 6 || month == 9 || month == 11 then 30
    else 31
  }

  /** Value of a string of two ASCII digits. */
  function TwoDigitValue(s: string): (n: int)
    requires |s| == 2 && IsNumeric(s)
    ensures 0 <= n <= 99
  {
    assert s[0] in s && s[1] in s;
    (s[0] as int - '0' as int) * 10 + (s[1] as int - '0' as int)
  }

  /** `datetime.strptime(v + "/1972", "%d/%m/%Y")` succeeds on two-digit day and month fields
      exactly when they name a real day of 1972. */
  predicate IsDayOfMonth1972(day: int, month: int)
  {
    1 <= month <= 12 && 1 <= day <= DaysInMonth1972(month)
  }

  /** The five-character DD/MM shape the validator checks before parsing. */
  predicate IsDDMMShape(v: string)
  {
    |v| == 5 && IsNumeric(v[0..2]) && IsNumeric(v[3..5]) && v[2] == '/'
  }

  /** `validate_registration_date`: shape first, then the calendar check; an accepted
      date string is returned as given. */
  function ValidateRegistrationDate(v: string): (r: Checked<string>)
    ensures r.Accepted? <==>
              IsDDMMShape(v) && IsDayOfMonth1972(TwoDigitValue(v[0..2]), TwoDigitValue(v[3..5]))
    ensures r.Accepted? ==> r.value == v
    ensures r.Rejected? ==> r.message == "Invalid registration date format"
  {
    if |v| != 5 then Rejected("Invalid registration date format")
    else if !IsNumeric(v[0..2]) || !IsNumeric(v[3..5]) || v[2] != '/' then
      Rejected("Invalid registration date format")
    else if !IsDayOfMonth1972(TwoDigitValue(v[0..2]), TwoDigitValue(v[3..5])) then
      Rejected("Invalid registration date format")
    else Accepted(v)
  }

  function DigitChar(n: int): (c: char)
    requires 0 <= n <= 9
    ensures IsDigitChar(c) && c as int - '0' as int == n
  {
    ('0' as int + n) as char
  }

  /** Zero-padded two-digit rendering of a number below 100. */
  function TwoDigits(n: int): (s: string)
    requires 0 <= n <= 99
    ensures |s| == 2 && IsNumeric(s) && TwoDigitValue(s) == n
  {
    var s := [DigitChar(n / 10), DigitChar(n % 10)];
    assert forall c | c in s :: c == s[0] || c == s[1];
    s
  }

  /** The DD/MM text of a day and month. */
  function FormatDDMM(day: int, month: int): (s: string)
    requires IsDayOfMonth1972(day, month)
    ensures |s| == 5
  {
    TwoDigits(day) + "/" + TwoDigits(month)
  }

  /** Every real day of 1972, written as DD/MM, is accepted, and its fields read back
      as the same day and month. */
  lemma FormattedDateAccepted(day: int, month: int)
    requires IsDayOfMonth1972(day, month)
    ensures ValidateRegistrationDate(FormatDDMM(day, month)) == Accepted(FormatDDMM(day, month))
    ensures TwoDigitValue(FormatDDMM(day, month)[0..2]) == day
    ensures TwoDigitValue(FormatDDMM(day, month)[3..5]) == month
  {
    var s := FormatDDMM(day, month);
    assert s[0..2] == TwoDigits(day);
    assert s[3..5] == TwoDigits(month);
  }

  /** Conversely, an accepted date string is the DD/MM rendering of the day and month it names. */
  lemma AcceptedDateIsFormatted(v: string)
    requires ValidateRegistrationDate(v).Accepted?
    ensures IsDayOfMonth1972(TwoDigitValue(v[0..2]), TwoDigitValue(v[3..5]))
    ensures v == FormatDDMM(TwoDigitValue(v[0..2]), TwoDigitValue(v[3..5]))
  {
    var d, m := TwoDigitValue(v[0..2]), TwoDigitValue(v[3..5]);
    var s := FormatDDMM(d, m);
    assert v[0] in v[0..2] && v[1] in v[0..2];
    assert v[3] in v[3..5] && v[4] in v[3..5];
    assert s[0] == v[0] && s[1] == v[1];
    assert s[3] == v[3] && s[4] == v[4];
    assert s == v;
  }

  /** Leap day is accepted; days past the end of their month, day zero and month 13 are not. */
  lemma DateExamples()
    ensures ValidateRegistrationDate("29/02").Accepted?
    ensures ValidateRegistrationDate("30/02").Rejected?
    ensures ValidateRegistrationDate("31/04").Rejected?
    ensures ValidateRegistrationDate("00/05").Rejected?
    ensures ValidateRegistrationDate("10/13").Rejected?
    ensures ValidateRegistrationDate("1/2/3").Rejected?
  {
    FormattedDateAccepted(29, 2);
    assert FormatDDMM(29, 2) == "29/02";
    assert TwoDigitValue("30") == 30 && TwoDigitValue("02") == 2;
    assert TwoDigitValue("31") == 31 && TwoDigitValue("04") == 4;
    assert TwoDigitValue("00") == 0;
    assert TwoDigitValue("13") == 13;
    assert "1/"[1] == '/' && "1/"[1] in "1/";
  }

  /** `validate_group_number`: only groups 1 and 2 exist. */
  function ValidateGroupNumber(v: int): (r: Checked<int>)
    ensures r.Accepted? <==> v == 1 || v == 2
    ensures r.Accepted? ==> r.value == v
  {
    if v != 1 && v != 2 then Rejected("Invalid group number") else Accepted(v)
  }
}
