/**
 * Extraction of the new chain identifier from the command line
 * (`getChainIdFromArgs`): the first argument starting with `--chainId=`,
 * cut at the second `=` by `split('=')[1]`.
 */
module Args {
  import opened Opt
  import opened JsString

  const FlagName: string := "--chainId"
  const ChainIdFlag: string := FlagName + "="

  /** `split('=')` keeps the flag name as its first piece. */
  lemma SplitFlagArg(arg: string)
    requires StartsWith(arg, ChainIdFlag)
    ensures Split(arg, '=') == [FlagName] + Split(arg[|ChainIdFlag|..], '=')
  {
    var tail := arg[|ChainIdFlag|..];
    assert arg == FlagName + ['='] + tail;
    assert '=' !in FlagName;
    SplitAtFirstSeparator(FlagName, '=', tail);
  }

  /** `argv.find(arg => arg.startsWith('--chainId='))` */
  function FindChainIdArg(argv: seq<string>): (r: Option<string>)
    ensures r.None? <==> forall i :: 0 <= i < |argv| ==> !StartsWith(argv[i], ChainIdFlag)
    ensures r.Some? ==> StartsWith(r.value, ChainIdFlag) && r.value in argv
  {
    if argv == [] then None
    else if StartsWith(argv[0], ChainIdFlag) then Some(argv[0])
    else FindChainIdArg(argv[1..])
  }

  /** `find` returns the first matching argument, whatever comes after it. */
  lemma {:induction false} FindReturnsFirstMatch(argv: seq<string>, i: nat)
    requires i < |argv| && StartsWith(argv[i], ChainIdFlag)
    requires forall j :: 0 <= j < i ==> !StartsWith(argv[j], ChainIdFlag)
    ensures FindChainIdArg(argv) == Some(argv[i])
  {
    if i > 0 {
      assert !StartsWith(argv[0], ChainIdFlag);
      FindReturnsFirstMatch(argv[1..], i - 1);
    }
  }

  /**
   * `arg.split('=')[1]` for an argument that starts with `--chainId=`: the
   * text after the first `=` up to the second `=` or the end.
   */
  function ChainIdOf(arg: string): (v: string)
    requires StartsWith(arg, ChainIdFlag)
    ensures '=' !in v
    ensures ChainIdFlag + v <= arg
    ensures |arg| == |ChainIdFlag| + |v| || arg[|ChainIdFlag| + |v|] == '='
  {
    var tail := arg[|ChainIdFlag|..];
    SplitFlagArg(arg);
    var v := Split(arg, '=')[1];
    assert v == Split(tail, '=')[0];
    FirstPieceIsLongestPrefix(tail, '=');
    assert arg == ChainIdFlag + tail;
    v
  }

  /** The identifier is determined by the argument: any `=`-free text that
      follows the flag and runs to the end or to a `=` is it. */
  lemma ChainIdOfUnique(v: string, rest: string)
    requires '=' !in v
    requires rest == [] || rest[0] == '='
    ensures ChainIdOf(ChainIdFlag + v + rest) == v
  {
    var arg := ChainIdFlag + v + rest;
    assert arg[|ChainIdFlag|..] == v + rest;
    SplitFlagArg(arg);
    FirstPieceUnique(v, rest, '=');
  }

  /** `getChainIdFromArgs()`: `null` (here `None`) exactly when no argument
      carries the flag; otherwise an `=`-free value. */
  function GetChainIdFromArgs(argv: seq<string>): (r: Option<string>)
    ensures r.None? <==> forall i :: 0 <= i < |argv| ==> !StartsWith(argv[i], ChainIdFlag)
    ensures r.Some? ==> '=' !in r.value
  {
    match FindChainIdArg(argv)
    case None => None
    case Some(arg) => Some(ChainIdOf(arg))
  }

  /** The result is absent exactly when no argument starts with the flag, and
      otherwise comes from the first argument that does. */
  lemma GetChainIdFromArgsSpec(argv: seq<string>, i: nat)
    requires i < |argv| && StartsWith(argv[i], ChainIdFlag)
    requires forall j :: 0 <= j < i ==> !StartsWith(argv[j], ChainIdFlag)
    ensures GetChainIdFromArgs(argv) == Some(ChainIdOf(argv[i]))
  {
    FindReturnsFirstMatch(argv, i);
  }

  /** `--chainId=1=2` yields `1`; a later `--chainId=` argument is ignored. */
  lemma ExampleSecondEqualsAndLaterFlag()
    ensures GetChainIdFromArgs(["bun", "scripts/duplicate.ts", "--chainId=1=2", "--chainId=7"])
            == Some("1")
  {
    var argv := ["bun", "scripts/duplicate.ts", "--chainId=1=2", "--chainId=7"];
    assert argv[0][0] != ChainIdFlag[0] && argv[1][0] != ChainIdFlag[0];
    assert argv[2] == ChainIdFlag + "1" + "=2";
    FindReturnsFirstMatch(argv, 2);
    ChainIdOfUnique("1", "=2");
  }

  /** `--chainId=` yields the empty string, not `null`. */
  lemma ExampleEmptyValue()
    ensures GetChainIdFromArgs(["--chainId="]) == Some("")
  {
    assert "--chainId=" == ChainIdFlag + "" + "";
    ChainIdOfUnique("", "");
  }
}
