/**
  Command-line parameters: recognising a flag by prefix and extracting the
  value after `=` (`Matches`, `ParseValue`, `ParseValueOr`,
  `ParseIntValueOr`, `IsFlag`, `NewArgParameter`, `NewFlagParameter`).
 */
module Parameters {
  import opened Results
  import opened Strings
  import opened Paths

  /** A parameter: short letter, long name, value name (empty for a flag), description. */
  datatype Parameter = Parameter(short: char, long: string, valueName: string, description: string)

  predicate IsFlag(p: Parameter)
  {
    |p.valueName| == 0
  }

  function NewArgParameter(short: char, long: string, argument: string, description: string): (p: Parameter)
    ensures p.short == short && p.long == long && p.description == description
    ensures p.valueName == argument
    ensures |argument| > 0 ==> !IsFlag(p)
  {
    Parameter(short, long, argument, description)
  }

  function NewFlagParameter(short: char, long: string, description: string): (p: Parameter)
    ensures p.short == short && p.long == long && p.description == description
    ensures IsFlag(p)
  {
    Parameter(short, long, "", description)
  }

  /**
    A prefix test against `-<short>` and `--<long>`: anything may follow, so
    `-vv` and `-hX` match too.
   */
  predicate Matches(p: Parameter, value: string)
  {
    HasPrefix(value, "-" + [p.short]) || HasPrefix(value, "--" + p.long)
  }

  /** The characters of a `Matches` hit, spelled out. */
  lemma MatchesCharacters(p: Parameter, value: string)
    ensures Matches(p, value) <==>
      || (|value| >= 2 && value[0] == '-' && value[1] == p.short)
      || (|value| >= 2 + |p.long| && value[0] == '-' && value[1] == '-' && value[2..2 + |p.long|] == p.long)
  {
    if |value| >= 2 + |p.long| && value[0] == '-' && value[1] == '-' && value[2..2 + |p.long|] == p.long {
      assert value[..2 + |p.long|] == value[..2] + value[2..2 + |p.long|];
    }
  }

  /** For `-x...` with `x` not a dash, only the short letter decides the match. */
  lemma ShortLetterDecides(p: Parameter, value: string)
    requires |value| >= 2 && value[0] == '-' && value[1] != '-'
    ensures Matches(p, value) <==> value[1] == p.short
  {
    MatchesCharacters(p, value);
  }

  /** The terminator `--` alone matches no parameter with a long name. */
  lemma TerminatorMatchesNothing(p: Parameter)
    requires p.short != '-' && |p.long| > 0
    ensures !Matches(p, "--")
  {
    MatchesCharacters(p, "--");
  }

  /** Every match starts with a dash, so a plain argument matches nothing. */
  lemma MatchesNeedsDash(p: Parameter, value: string)
    ensures Matches(p, value) ==> HasPrefix(value, "-")
  {
    MatchesCharacters(p, value);
    if |value| > 0 {
      assert value[..1] == [value[0]];
    }
  }

  /** A matching argument still matches with anything appended. */
  lemma MatchesExtends(p: Parameter, value: string, suffix: string)
    requires Matches(p, value)
    ensures Matches(p, value + suffix)
  {
    var v := value + suffix;
    if HasPrefix(value, "-" + [p.short]) {
      assert v[..2] == value[..2];
    } else {
      assert v[..2 + |p.long|] == value[..2 + |p.long|];
    }
  }

  /** Everything after the first `=`, or "" when there is none. */
  function ParseValue(value: string): (r: string)
    ensures '=' !in value ==> r == ""
    ensures '=' in value ==> exists i :: 0 <= i < |value| && value[i] == '=' && '=' !in value[..i] && r == value[i + 1..]
    decreases |value|
  {
    if |value| == 0 then ""
    else if value[0] == '=' then
      assert '=' !in value[..0];
      value[1..]
    else
      var r := ParseValue(value[1..]);
      assert '=' in value ==> '=' in value[1..];
      assert '=' in value ==> exists i :: 0 <= i < |value| && value[i] == '=' && '=' !in value[..i] && r == value[i + 1..] by {
        if '=' in value {
          var k :| 0 <= k < |value[1..]| && value[1..][k] == '=' && '=' !in value[1..][..k] && r == value[1..][k + 1..];
          assert value[..k + 1] == [value[0]] + value[1..][..k];
          assert value[k + 2..] == value[1..][k + 1..];
        }
      }
      r
  }

  /** Only the first `=` is consumed: a key without `=` followed by `=v` gives `v` back. */
  lemma {:induction false} ParseValueAfterKey(key: string, v: string)
    requires '=' !in key
    ensures ParseValue(key + "=" + v) == v
    decreases |key|
  {
    if |key| == 0 {
      assert key + "=" + v == "=" + v;
    } else {
      assert (key + "=" + v)[1..] == key[1..] + "=" + v;
      ParseValueAfterKey(key[1..], v);
    }
  }

  /**
    The value with its fallbacks: a non-empty parsed value wins; otherwise a
    named variable is read (its value returned even if empty); otherwise the
    fallback.
   */
  function ParseValueOr(p: Parameter, value: string, env: Env, name: string, fallback: string): (r: string)
    ensures |ParseValue(value)| > 0 ==> r == ParseValue(value)
    ensures |ParseValue(value)| == 0 && |name| > 0 ==> r == Getenv(env, name)
    ensures |ParseValue(value)| == 0 && |name| == 0 ==> r == fallback
  {
    var result := ParseValue(value);
    if 0 < |result| then result
    else if 0 < |name| then Getenv(env, name)
    else if 0 < |fallback| then fallback
    else ""
  }

  /**
    The value as an integer, or the fallback when it is empty or does not
    parse; `atoi` stands for the number parser.
   */
  function ParseIntValueOr(p: Parameter, value: string, fallback: int, atoi: string -> Option<int>): (r: int)
    ensures |ParseValue(value)| == 0 ==> r == fallback
    ensures atoi(ParseValue(value)).None? ==> r == fallback
    ensures |ParseValue(value)| > 0 && atoi(ParseValue(value)).Some? ==> r == atoi(ParseValue(value)).value
  {
    var result := ParseValue(value);
    if 0 < |result| then
      match atoi(result)
      case Some(num) => num
      case None => fallback
    else fallback
  }
}
