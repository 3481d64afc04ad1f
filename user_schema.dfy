/** Field and model validators of the user requests (`UserBase`, `UserCreateRequest`,
    `UserSessionStoreValue`). */
module UserSchema {
  import opened Validation

  const MaxUsernameLength := 50
  /** The bound the code applies to passwords (its error message says 50). */
  const MaxPasswordLength := 72

  predicate IsUpperChar(c: char)
  {
    'A' <= c <= 'Z'
  }

  function LowerChar(c: char): (d: char)
    ensures !IsUpperChar(d)
    ensures IsAlnumChar(d) <==> IsAlnumChar(c)
    ensures IsSeparator(d) <==> IsSeparator(c)
    ensures !IsUpperChar(c) ==> d == c
  {
    if IsUpperChar(c) then (c as int - 'A' as int + 'a' as int) as char else c
  }

  /** `str.lower()` on ASCII letters. */
  function Lower(s: string): (r: string)
    ensures |r| == |s|
    ensures forall i :: 0 <= i < |s| ==> r[i] == LowerChar(s[i])
  {
    if s == [] then [] else [LowerChar(s[0])] + Lower(s[1..])
  }

  /** Lower-casing leaves no upper-case letter and is idempotent. */
  lemma LowerIsLower(s: string)
    ensures forall c | c in Lower(s) :: !IsUpperChar(c)
    ensures Lower(Lower(s)) == Lower(s)
  {
  }

  /** `make_lower`: the username is lower-cased; it never fails. */
  function MakeLower(v: string): (r: Checked<string>)
    ensures r.Accepted?
    ensures |r.value| == |v| && forall c | c in r.value :: !IsUpperChar(c)
  {
    Accepted(Lower(v))
  }

  /** `validate_username`, as applied to the value `make_lower` produced. */
  function CheckUsername(v: string): (r: Checked<string>)
    ensures r.Accepted? <==>
              1 <= |v| <= MaxUsernameLength &&
              (forall c | c in v :: NameChar(c)) && (exists c :: c in v && IsAlnumChar(c))
    ensures r.Accepted? ==> r.value == v
  {
    StrippedIsAlnumIff(v);
    if |v| == 0 then Rejected("Username cannot be empty")
    else if |v| > MaxUsernameLength then Rejected("Username is too long (max 50 characters)")
    else if !IsAlnum(StripSeparators(v)) then
      Rejected("Username can only contain alphanumeric characters, underscores, hyphens and spaces")
    else Accepted(v)
  }

  /** The two username validators in declaration order: lower-case first, then check. */
  function ValidateUsername(v: string): (r: Checked<string>)
    ensures r.Accepted? ==> r.value == Lower(v) && 1 <= |v| <= MaxUsernameLength
    ensures |v| == 0 ==> r == Rejected("Username cannot be empty")
    ensures |v| > MaxUsernameLength ==> r == Rejected("Username is too long (max 50 characters)")
  {
    match MakeLower(v)
    case Rejected(m) => Rejected(m)
    case Accepted(lowered) => CheckUsername(lowered)
  }

  /** Lower-casing neither adds nor removes a letter, digit or separator. */
  lemma LowerKeepsCharClasses(v: string)
    ensures (forall c | c in Lower(v) :: NameChar(c)) <==> (forall c | c in v :: NameChar(c))
    ensures (exists c :: c in Lower(v) && IsAlnumChar(c)) <==> (exists c :: c in v && IsAlnumChar(c))
  {
    var l := Lower(v);
    if forall c | c in v :: NameChar(c) {
      forall c | c in l ensures NameChar(c) {
        var i :| 0 <= i < |l| && l[i] == c;
        assert v[i] in v;
      }
    }
    if forall c | c in l :: NameChar(c) {
      forall c | c in v ensures NameChar(c) {
        var i :| 0 <= i < |v| && v[i] == c;
        assert l[i] in l;
      }
    }
    if exists c :: c in v && IsAlnumChar(c) {
      var c :| c in v && IsAlnumChar(c);
      var i :| 0 <= i < |v| && v[i] == c;
      assert l[i] in l && IsAlnumChar(l[i]);
    }
    if exists c :: c in l && IsAlnumChar(c) {
      var c :| c in l && IsAlnumChar(c);
      var i :| 0 <= i < |l| && l[i] == c;
      assert v[i] in v && IsAlnumChar(v[i]);
    }
  }

  /** A username is accepted exactly when the text as typed meets the length and character
      rules (case does not matter to them), and what is stored is its lower-case form. */
  lemma UsernameAcceptance(v: string)
    ensures ValidateUsername(v).Accepted? <==>
              1 <= |v| <= MaxUsernameLength &&
              (forall c | c in v :: NameChar(c)) && (exists c :: c in v && IsAlnumChar(c))
    ensures ValidateUsername(v).Accepted? ==> ValidateUsername(v).value == Lower(v)
    ensures ValidateUsername(v) == ValidateUsername(Lower(v))
  {
    LowerKeepsCharClasses(v);
    LowerIsLower(v);
  }

  /** `validate_password`: 1 to 72 characters, returned unchanged. */
  function ValidatePassword(v: string): (r: Checked<string>)
    ensures r.Accepted? <==> 1 <= |v| <= MaxPasswordLength
    ensures r.Accepted? ==> r.value == v
  {
    if |v| == 0 then Rejected("Password cannot be empty")
    else if |v| > MaxPasswordLength then Rejected("Password is too long (max 50 characters)")
    else Accepted(v)
  }

  datatype UserRole = Player | Manager | Admin

  function RoleName(role: UserRole): string
  {
    match role
    case Player => "player"
    case Manager => "manager"
    case Admin => "admin"
  }

  /** Coercion of the request text into the `UserRole` enum: only the three names parse. */
  function ParseUserRole(s: string): (r: Checked<UserRole>)
    ensures r.Accepted? <==> s == "player" || s == "manager" || s == "admin"
    ensures r.Accepted? ==> RoleName(r.value) == s
  {
    if s == "player" then Accepted(Player)
    else if s == "manager" then Accepted(Manager)
    else if s == "admin" then Accepted(Admin)
    else Rejected("User role should be one of player, manager, admin")
  }

  /** Every role reads back from its own name. */
  lemma RoleNameRoundTrip(role: UserRole)
    ensures ParseUserRole(RoleName(role)) == Accepted(role)
  {
  }

  /** `validate_user_role`: every enum member is in the allowed set, so the role is returned
      unchanged. */
  function ValidateUserRole(role: UserRole): (r: Checked<UserRole>)
    ensures r == Accepted(role)
  {
    if !(role.Player? || role.Manager? || role.Admin?) then Rejected("User role should be one of player, manager, admin")
    else Accepted(role)
  }

  datatype SessionValue = SessionValue(userId: int, userRole: UserRole, teamId: Option<int>)

  /** `validate_team_id`: players and managers must belong to a team; admins need not. */
  function ValidateSessionTeamId(s: SessionValue): (r: Checked<SessionValue>)
    ensures r.Rejected? <==> !s.userRole.Admin? && s.teamId.None?
    ensures r.Accepted? ==> r.value == s
  {
    if (s.userRole.Player? || s.userRole.Manager?) && s.teamId.None? then
      Rejected("Team ID cannot be null for player or manager")
    else Accepted(s)
  }
}
