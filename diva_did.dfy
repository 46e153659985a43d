/** `DivaDid.main`: the first command-line argument names the script, and every later one is
    a `key=value` alias assignment stored in the script before it runs. */
module DivaDid {
  import opened Outcomes

  /** The message of the `IllegalArgumentException` for an argument that is not `key=value`
      (its wording, typo included, is the program's). */
  function Misunderstood(s: string): string {
    "Cannot understand " + s + "\nArguments shouldb be passed as key=value \nSee documentation."
  }

  /** `s.indexOf(c)`: the position of the first c in s, or -1 when there is none. */
  function IndexOf(s: string, c: char): (r: int)
    ensures -1 <= r < |s|
    ensures r == -1 <==> (forall i :: 0 <= i < |s| ==> s[i] != c)
    ensures 0 <= r ==> s[r] == c && forall i :: 0 <= i < r ==> s[i] != c
  {
    IndexFrom(s, c, 0)
  }

  /** The position of the first c in s at or after position from, or -1. */
  function IndexFrom(s: string, c: char, from: nat): (r: int)
    requires from <= |s|
    ensures r == -1 || from <= r < |s|
    ensures r == -1 <==> (forall i :: from <= i < |s| ==> s[i] != c)
    ensures 0 <= r ==> s[r] == c && forall i :: from <= i < r ==> s[i] != c
    decreases |s| - from
  {
    if from == |s| then -1
    else if s[from] == c then from
    else IndexFrom(s, c, from + 1)
  }

  /** The split of one alias argument at its first `=`: the key before it and the value after
      it; `None` when there is no `=` or it comes first (an empty key). */
  function Split(s: string): Option<(string, string)> {
    var eq := IndexOf(s, '=');
    if eq <= 0 then None else Some(SplitAt(s, eq))
  }

  /** The text before and after position eq, leaving out the character there. */
  function SplitAt(s: string, eq: int): (string, string)
    requires 0 < eq < |s|
  {
    (s[..eq], s[eq + 1..])
  }

  /** An argument is refused exactly when it holds no `=` or starts with one. */
  lemma SplitRefuses(s: string)
    ensures Split(s).None? <==> (forall i :: 0 <= i < |s| ==> s[i] != '=') || (|s| > 0 && s[0] == '=')
  {
  }

  /** A split argument is its key, `=` and its value, and the key is non-empty and free of `=`. */
  lemma SplitParts(s: string)
    requires Split(s).Some?
    ensures var (k, v) := Split(s).value;
      s == k + "=" + v && |k| > 0 && forall i :: 0 <= i < |k| ==> k[i] != '='
  {
    var eq := IndexOf(s, '=');
    assert s == s[..eq] + [s[eq]] + s[eq + 1..];
  }

  /** Joining a non-empty key free of `=` to any value (which may hold `=`) splits back. */
  lemma JoinSplits(k: string, v: string)
    requires |k| > 0 && forall i :: 0 <= i < |k| ==> k[i] != '='
    ensures Split(k + "=" + v) == Some((k, v))
  {
    var s := k + "=" + v;
    assert s[|k|] == '=' && forall i :: 0 <= i < |k| ==> s[i] == k[i];
    assert IndexOf(s, '=') == |k|;
    assert s[..|k|] == k && s[|k| + 1..] == v;
  }

  /** The aliases that the arguments from position i on leave in a table that starts as m,
      put one after the other; the first argument that does not split fails with its
      message. */
  function Aliases(m: map<string, string>, args: seq<string>, i: nat): Result<map<string, string>>
    decreases |args| - i
  {
    if |args| <= i then Ok(m)
    else
      match Split(args[i])
      case None => Err(IllegalArgument(Misunderstood(args[i])))
      case Some((k, v)) => Aliases(m[k := v], args, i + 1)
  }

  /** The value that the last assignment to key from position i on gives it, if any argument
      there assigns it. */
  function LastAssigned(args: seq<string>, i: nat, key: string): Option<string>
    decreases |args| - i
  {
    if |args| <= i then None
    else
      match LastAssigned(args, i + 1, key)
      case Some(v) => Some(v)
      case None =>
        match Split(args[i])
        case Some((k, v)) => if k == key then Some(v) else None
        case None => None
  }

  /** When every argument from position i on splits, the table maps each key to the value of
      its last assignment, and keeps m's entry for every key no argument assigns. */
  lemma {:induction false} LastAssignmentWins(m: map<string, string>, args: seq<string>, i: nat, key: string)
    requires forall j :: i <= j < |args| ==> Split(args[j]).Some?
    ensures Aliases(m, args, i).Ok?
    ensures var t := Aliases(m, args, i).value;
      match LastAssigned(args, i, key)
      case Some(v) => key in t && t[key] == v
      case None => (key in t <==> key in m) && (key in m ==> t[key] == m[key])
    decreases |args| - i
  {
    if i < |args| {
      var (k, v) := Split(args[i]).value;
      LastAssignmentWins(m[k := v], args, i + 1, key);
    }
  }

  /** The arguments from position i on fail at the first one, at position j, that does not
      split, with that argument's message. */
  lemma {:induction false} FirstBadArgumentFails(m: map<string, string>, args: seq<string>, i: nat, j: int)
    requires i <= j < |args| && Split(args[j]).None?
    requires forall n :: i <= n < j ==> Split(args[n]).Some?
    ensures Aliases(m, args, i) == Err(IllegalArgument(Misunderstood(args[j])))
    decreases j - i
  {
    if i < j {
      var (k, v) := Split(args[i]).value;
      FirstBadArgumentFails(m[k := v], args, i + 1, j);
    }
  }

  /** The arguments from position i on leave a table exactly when every one of them splits. */
  lemma {:induction false} AliasesSucceedExactly(m: map<string, string>, args: seq<string>, i: nat)
    ensures Aliases(m, args, i).Ok? <==> forall j :: i <= j < |args| ==> Split(args[j]).Some?
    decreases |args| - i
  {
    if i < |args| {
      match Split(args[i])
      case None =>
      case Some((k, v)) =>
        AliasesSucceedExactly(m[k := v], args, i + 1);
    }
  }

  /** The running script: its file name and the alias table `setAlias` fills. */
  class Script {
    const name: string
    var alias: map<string, string>

    /** `new Script(fname)`, reduced to the name and an empty alias table. */
    constructor (fname: string)
      ensures name == fname && alias == map[]
    {
      name := fname;
      alias := map[];
    }

    /** `setAlias(key, value)`: a put into the table, overwriting an earlier value. */
    method SetAlias(key: string, value: string)
      modifies this
      ensures alias == old(alias)[key := value]
    {
      alias := alias[key := value];
    }
  }

  /** The argument loop of `main`: the first argument creates the script, the later ones are
      split and stored as aliases. With no argument the script stays null and `script.run()`
      fails with a `NullPointerException`; otherwise the script that `run` is called on
      names the first argument and holds the aliases of the others. */
  method Start(args: seq<string>) returns (r: Result<Script>)
    ensures |args| == 0 ==> r == Err(NullPointer)
    ensures |args| > 0 ==>
      match Aliases(map[], args, 1)
      case Err(e) => r == Err(e)
      case Ok(t) => r.Ok? && fresh(r.value) && r.value.name == args[0] && r.value.alias == t
  {
    var script: Script? := null;
    for i := 0 to |args|
      invariant script == null <==> i == 0
      invariant script != null ==>
        fresh(script) && script.name == args[0] && Aliases(map[], args, 1) == Aliases(script.alias, args, i)
    {
      var s := args[i];
      if script == null {
        script := new Script(s);
        continue;
      }
      var eq := IndexOf(s, '=');
      if eq <= 0 {
        return Err(IllegalArgument(Misunderstood(s)));
      }
      script.SetAlias(s[..eq], s[eq + 1..]);
    }
    if script == null {
      return Err(NullPointer);
    }
    return Ok(script);
  }
}
