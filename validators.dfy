/** The username format check: `re.match(r'^[\w.@+-]+$', value)`, raising a
    validation error when it does not match. */
module Validators {

  /** The regular expression class `\w` of a str pattern. Python takes it from
      Unicode; here it is ASCII letters, digits and `_` plus the Russian
      Cyrillic letters. */
  predicate IsWordChar(c: char)
  {
    || 'a' <= c <= 'z'
    || 'A' <= c <= 'Z'
    || '0' <= c <= '9'
    || c == '_'
    || 'А' <= c <= 'я'
    || c == 'Ё'
    || c == 'ё'
  }

  /** The class `[\w.@+-]`. */
  predicate IsAllowed(c: char)
  {
    IsWordChar(c) || c == '.' || c == '@' || c == '+' || c == '-'
  }

  predicate AllAllowed(s: string)
  {
    forall i :: 0 <= i < |s| ==> IsAllowed(s[i])
  }

  /** How far `[\w.@+-]+` runs from the start of `s`: the length of the
      longest prefix of allowed characters. */
  function AllowedRun(s: string): (n: nat)
    ensures n <= |s|
    ensures AllAllowed(s[..n])
    ensures n < |s| ==> !IsAllowed(s[n])
  {
    if s == [] || !IsAllowed(s[0]) then 0
    else
      var n := 1 + AllowedRun(s[1..]);
      assert s[..n] == [s[0]] + s[1..][..n - 1];
      n
  }

  datatype ValidationError = FormatMismatch(value: string)

  datatype Outcome = Pass | Fail(error: ValidationError)

  /** `validate_format`: the pattern must match from the first character; its
      `$` matches at the end of the string or just before a final newline. */
  function ValidateFormat(value: string): (r: Outcome)
    ensures r.Fail? ==> r.error == FormatMismatch(value)
    ensures r.Pass? ==> 1 <= |value| && IsAllowed(value[0])
  {
    var n := AllowedRun(value);
    if 1 <= n && (n == |value| || (n == |value| - 1 && value[n] == '\n')) then Pass
    else Fail(FormatMismatch(value))
  }

  /** A value passes exactly when it is a non-empty run of allowed characters,
      optionally followed by one newline. */
  lemma ValidateFormatIff(value: string)
    ensures ValidateFormat(value).Pass? <==>
      || (1 <= |value| && AllAllowed(value))
      || (2 <= |value| && value[|value| - 1] == '\n' && AllAllowed(value[..|value| - 1]))
  {
    var n := AllowedRun(value);
    if 1 <= |value| && AllAllowed(value) {
      assert n == |value|;
    }
    if 2 <= |value| && value[|value| - 1] == '\n' && AllAllowed(value[..|value| - 1]) {
      assert !IsAllowed(value[|value| - 1]);
      assert n == |value| - 1;
    }
    if ValidateFormat(value).Pass? {
      if n == |value| - 1 {
        assert value[..|value| - 1] == value[..n];
      } else {
        assert value == value[..n];
      }
    }
  }

  /** The `+` quantifier needs at least one character. */
  lemma EmptyRejected()
    ensures ValidateFormat("") == Fail(FormatMismatch(""))
  {
  }

  /** A character outside the class anywhere in the value is rejected, unless
      it is the single newline that `$` tolerates at the very end. */
  lemma ForbiddenCharRejected(value: string, i: nat)
    requires i < |value| && !IsAllowed(value[i])
    requires !(i == |value| - 1 && value[i] == '\n')
    ensures ValidateFormat(value).Fail?
  {
    ValidateFormatIff(value);
  }

  /** A space or a slash at any position is rejected. */
  lemma SpaceOrSlashRejected(value: string, i: nat)
    requires i < |value| && (value[i] == ' ' || value[i] == '/')
    ensures ValidateFormat(value).Fail?
  {
    ForbiddenCharRejected(value, i);
  }

  /** With `re.match` and `$`, a valid name followed by one newline passes too. */
  lemma TrailingNewlineAccepted(name: string)
    requires 1 <= |name| && AllAllowed(name)
    ensures ValidateFormat(name + "\n").Pass?
  {
    var v := name + "\n";
    assert v[..|v| - 1] == name;
    ValidateFormatIff(v);
  }
}
