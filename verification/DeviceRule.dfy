/** Device rules: the text written to devices.allow and devices.deny, and the lines of devices.list. */
module DeviceRule {
  import opened Decimal
  import opened Integers
  import opened Text
  import opened Wrappers

  datatype DeviceType = All | Char | Block {
    function ToChar(): char {
      match this case All => 'a' case Char => 'c' case Block => 'b'
    }

    static function FromChar(c: Option<char>): Option<DeviceType> {
      match c
      case Some('a') => Some(All)
      case Some('c') => Some(Char)
      case Some('b') => Some(Block)
      case _ => None
    }
  }

  datatype Permission = Read | Write | MkNod {
    function ToChar(): char {
      match this case Read => 'r' case Write => 'w' case MkNod => 'm'
    }

    static function FromChar(c: char): Option<Permission> {
      match c
      case 'r' => Some(Read)
      case 'w' => Some(Write)
      case 'm' => Some(MkNod)
      case _ => None
    }
  }

  datatype Rule = Rule(allow: bool, devtype: DeviceType, major: I64, minor: I64, access: seq<Permission>)

  function PrintPermissions(access: seq<Permission>): string {
    if access == [] then "" else PrintPermissions(access[..|access| - 1]) + [access[|access| - 1].ToChar()]
  }

  /** `DevicePermissions::from_str`: all characters, or nothing if one of them is none of r, w, m. */
  function Permissions(s: string): Option<seq<Permission>> {
    if s == "" then Some([])
    else
      match (Permissions(s[..|s| - 1]), Permission.FromChar(s[|s| - 1]))
      case (Some(v), Some(perm)) => Some(v + [perm])
      case _ => None
  }

  lemma {:induction false} BadPermissionSpoils(s: string, i: nat)
    requires i <= |s| && Permissions(s[..i]) == None
    ensures Permissions(s) == None
    decreases |s|
  {
    if i < |s| {
      assert s[..|s| - 1][..i] == s[..i];
      BadPermissionSpoils(s[..|s| - 1], i);
    } else {
      assert s[..i] == s;
    }
  }

  method FromStr(s: string) returns (r: Option<seq<Permission>>)
    ensures r == Permissions(s)
  {
    var v := [];
    if s == "" {
      return Some(v);
    }
    for i := 0 to |s|
      invariant Permissions(s[..i]) == Some(v)
    {
      assert s[..i + 1][..i] == s[..i];
      var perm := Permission.FromChar(s[i]);
      if perm.None? {
        BadPermissionSpoils(s, i + 1);
        return None;
      }
      v := v + [perm.value];
    }
    assert s[..|s|] == s;
    r := Some(v);
  }

  /** `DevicePermissions::is_valid` accepts what parses to at least one permission. */
  method IsValid(s: string) returns (ok: bool)
    ensures ok <==> Permissions(s).Some? && Permissions(s).value != []
  {
    if s == "" {
      return false;
    }
    for i := 0 to |s|
      invariant Permissions(s[..i]).Some? && |Permissions(s[..i]).value| == i
    {
      assert s[..i + 1][..i] == s[..i];
      if s[i] != 'r' && s[i] != 'w' && s[i] != 'm' {
        BadPermissionSpoils(s, i + 1);
        return false;
      }
    }
    assert s[..|s|] == s;
    ok := true;
  }

  function PrintNumber(n: I64): string {
    if n == -1 then "*" else PrintInt(n)
  }

  function ParseNumber(s: string): Option<I64> {
    if s == "*" then Some(-1) else ParseI64(s)
  }

  /** The text that allow_device and deny_device write. */
  function Print(r: Rule): string {
    [r.devtype.ToChar()] + " " + PrintNumber(r.major) + ":" + PrintNumber(r.minor) + " " + PrintPermissions(r.access)
  }

  function ParseLine(line: string, allow: bool): Option<Rule> {
    var parts := Split(line, {' ', ':'});
    if |parts| != 4 then None
    else
      match (DeviceType.FromChar(if parts[0] == "" then None else Some(parts[0][0])),
             ParseNumber(parts[1]), ParseNumber(parts[2]), Permissions(parts[3]))
      case (Some(devtype), Some(major), Some(minor), Some(access)) => Some(Rule(allow, devtype, major, minor, access))
      case _ => None
  }

  lemma {:induction false} PermissionsRoundTrip(access: seq<Permission>)
    ensures Permissions(PrintPermissions(access)) == Some(access) && Free(PrintPermissions(access), {' ', ':'})
  {
    if access != [] {
      PermissionsRoundTrip(access[..|access| - 1]);
      var s := PrintPermissions(access);
      assert s[..|s| - 1] == PrintPermissions(access[..|access| - 1]);
      assert access == access[..|access| - 1] + [access[|access| - 1]];
    }
  }

  lemma NumberRoundTrip(n: I64)
    ensures ParseNumber(PrintNumber(n)) == Some(n) && Free(PrintNumber(n), {' ', ':'})
  {
    if n != -1 {
      SignedRoundTrip(n, I64_MAX);
      PrintHasNoSeparator(n, ' ');
      PrintHasNoSeparator(n, ':');
      PrintHasNoSeparator(n, '*');
    }
  }

  lemma FieldsAssociate(a: string, b: string, c: string, d: string)
    ensures a + " " + b + ":" + c + " " + d == a + [' '] + (b + [':'] + (c + [' '] + d))
  {
    assert a + " " + b + ":" + c + " " + d == a + [' '] + b + [':'] + c + [' '] + d;
  }

  /** Four separator-free fields are read as they were written. */
  lemma FieldsRoundTrip(a: string, b: string, c: string, d: string)
    requires Free(a, {' ', ':'}) && Free(b, {' ', ':'}) && Free(c, {' ', ':'}) && Free(d, {' ', ':'})
    ensures Split(a + " " + b + ":" + c + " " + d, {' ', ':'}) == [a, b, c, d]
  {
    var seps := {' ', ':'};
    var cd := c + [' '] + d;
    var bcd := b + [':'] + cd;
    SplitFree(d, seps);
    SplitConcat(c, ' ', d, seps);
    SplitConcat(b, ':', cd, seps);
    SplitConcat(a, ' ', bcd, seps);
    assert Split(a + [' '] + bcd, seps) == [a, b, c, d];
    FieldsAssociate(a, b, c, d);
  }

  /** The text of any rule, with any permission list, is read back as the same rule. */
  lemma RuleRoundTrip(r: Rule)
    ensures ParseLine(Print(r), r.allow) == Some(r)
  {
    NumberRoundTrip(r.major);
    NumberRoundTrip(r.minor);
    PermissionsRoundTrip(r.access);
    var devtype, access := [r.devtype.ToChar()], PrintPermissions(r.access);
    FieldsRoundTrip(devtype, PrintNumber(r.major), PrintNumber(r.minor), access);
    assert Split(Print(r), {' ', ':'}) == [devtype, PrintNumber(r.major), PrintNumber(r.minor), access];
  }

  /** So two rules with the same text differ at most in whether they allow or deny. */
  lemma PrintIsInjective(r: Rule, s: Rule)
    ensures Print(r) == Print(s) <==> r.(allow := s.allow) == s
  {
    RuleRoundTrip(r.(allow := s.allow));
    RuleRoundTrip(s);
  }

  /** The lines of devices.list, all of them or none. */
  function ParseList(lines: seq<string>): Option<seq<Rule>> {
    if lines == [] then Some([])
    else
      match (ParseLine(lines[0], true), ParseList(lines[1..]))
      case (Some(r), Some(rest)) => Some([r] + rest)
      case _ => None
  }

  function PrintList(rules: seq<Rule>): seq<string> {
    if rules == [] then [] else [Print(rules[0])] + PrintList(rules[1..])
  }

  lemma {:induction false} ListRoundTrip(rules: seq<Rule>)
    requires forall r | r in rules :: r.allow
    ensures ParseList(PrintList(rules)) == Some(rules)
  {
    if rules != [] {
      assert rules[0] in rules;
      RuleRoundTrip(rules[0]);
      ListRoundTrip(rules[1..]);
      assert rules == [rules[0]] + rules[1..];
    }
  }

  // What the reader accepts, in terms of the text.

  /** A permission text is accepted exactly if it has only the letters r, w and m, each one permission. */
  lemma {:induction false} PermissionsAreExact(s: string)
    ensures Permissions(s).Some? <==> forall i | 0 <= i < |s| :: s[i] in {'r', 'w', 'm'}
    ensures Permissions(s).Some? ==>
              && |Permissions(s).value| == |s|
              && forall i | 0 <= i < |s| ::
                   Permissions(s).value[i] == if s[i] == 'r' then Read else if s[i] == 'w' then Write else MkNod
  {
    if s != "" {
      PermissionsAreExact(s[..|s| - 1]);
      assert forall i | 0 <= i < |s| - 1 :: s[..|s| - 1][i] == s[i];
    }
  }

  /** A device number is a '*', which stands for -1, or an i64. */
  lemma NumberIsExact(s: string, n: I64)
    ensures ParseNumber(s) == Some(n) <==> (s == "*" && n == -1) || (s != "*" && ParseI64(s) == Some(n))
    ensures ParseI64("*") == None
  {
    assert !IsDigit("*"[0]);
  }

  /** The first letter of the type field decides. */
  lemma TypeIsExact(field: string, t: DeviceType)
    requires field != ""
    ensures DeviceType.FromChar(Some(field[0])) == Some(t) <==>
              (field[0] == 'a' && t == All) || (field[0] == 'c' && t == Char) || (field[0] == 'b' && t == Block)
  {
  }

  /** A line is read exactly if it has four fields, with a type, two numbers and permissions; all else is an error. */
  lemma LineIsExact(a: string, b: string, c: string, d: string, r: Rule)
    requires Free(a, {' ', ':'}) && Free(b, {' ', ':'}) && Free(c, {' ', ':'}) && Free(d, {' ', ':'})
    ensures ParseLine(a + " " + b + ":" + c + " " + d, r.allow) == Some(r) <==>
              a != "" && DeviceType.FromChar(Some(a[0])) == Some(r.devtype) && ParseNumber(b) == Some(r.major)
              && ParseNumber(c) == Some(r.minor) && Permissions(d) == Some(r.access)
  {
    FieldsRoundTrip(a, b, c, d);
  }

  lemma OtherFieldCounts(line: string, allow: bool)
    requires Count(line, {' ', ':'}) != 3
    ensures ParseLine(line, allow) == None
  {
    SplitCount(line, {' ', ':'});
  }
}
