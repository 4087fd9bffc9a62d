/**
 * The script end to end: read the identifier from the command line, validate
 * it, read and parse the template, edit it, write it under the new name, and
 * report. File contents, the parser and the write are inputs here: `template`
 * says what reading and parsing `chains-testnet/84532.json` gave, and
 * `writeSucceeds` whether `Bun.write` succeeded.
 */
module Duplicate {
  import opened Opt
  import opened Args
  import Validation
  import opened Config

  const TargetDirectory: string := "chains-testnet"
  const TemplateChainId: string := "84532"

  function TargetFileName(id: string): (name: string)
    ensures |name| == |id| + 5 && name[..|id|] == id && name[|id|..] == ".json"
  {
    id + ".json"
  }

  /** `chains-testnet/<id>.json`, relative to the working directory. */
  function TargetPath(id: string): (path: string)
    ensures TargetDirectory + "/" <= path
    ensures path[|TargetDirectory| + 1..] == TargetFileName(id)
  {
    TargetDirectory + "/" + TargetFileName(id)
  }

  /** The template is read from the same directory. */
  const TemplatePath: string := TargetPath(TemplateChainId)

  /** Different identifiers give different destination path strings (before
      `path.join` normalises `..` segments). */
  lemma TargetPathInjective(a: string, b: string)
    requires TargetPath(a) == TargetPath(b)
    ensures a == b
  {
    assert TargetFileName(a) == TargetFileName(b);
    assert |a| == |b|;
    assert a == TargetFileName(a)[..|a|];
  }

  /** The destination path string is the template's exactly when the
      identifier is the template's own, 84532. This is about the string as
      concatenated, before `path.join` normalises `..` segments. */
  lemma TargetIsTemplateIff(id: string)
    ensures TargetPath(id) == TemplatePath <==> id == TemplateChainId
  {
    if TargetPath(id) == TemplatePath {
      TargetPathInjective(id, TemplateChainId);
    }
  }

  /** How the script can fail; each one ends the process with exit code 1. */
  datatype ErrorKind =
    | MissingArgument   // no `--chainId=` argument, or an empty value
    | InvalidArgument   // `parseInt(id, 10)` is NaN
    | ReadError         // the template could not be read
    | ParseError        // the template is not JSON
    | TypeError         // the template is JSON null, a boolean, a number or a string
    | WriteError        // the destination could not be written

  /** What reading and parsing the template gave. */
  datatype TemplateRead = ReadFailed | NotJson | Parsed(value: Json)

  /** The end of a run: an error, or the file written and the `rpc` report. */
  datatype Outcome =
    | Failed(error: ErrorKind)
    | Written(path: string, content: Json, rpcChanged: bool)

  function ExitCode(o: Outcome): (code: int)
    ensures code == 0 <==> o.Written?
    ensures code == 0 || code == 1
  {
    if o.Written? then 0 else 1
  }

  /** The identifier the command line gives, if it passes validation. */
  function AcceptedId(argv: seq<string>): Validation.ValidationResult {
    Validation.Validate(GetChainIdFromArgs(argv))
  }

  /**
   * Lines 16-73 of the script. The argument checks come first and end the
   * run before any file is touched. In an ES module (strict mode) reading
   * `rpc` of `null` or assigning `name` on a boolean, number or string throws
   * a TypeError. An array takes the assignments as extra properties that
   * `JSON.stringify` drops, so it is written back as it was.
   */
  method Run(argv: seq<string>, template: TemplateRead, writeSucceeds: bool) returns (o: Outcome)
    ensures AcceptedId(argv) == Validation.MissingArgument ==> o == Failed(MissingArgument)
    ensures AcceptedId(argv) == Validation.InvalidArgument ==> o == Failed(InvalidArgument)
    ensures AcceptedId(argv).Ok? && template == ReadFailed ==> o == Failed(ReadError)
    ensures AcceptedId(argv).Ok? && template == NotJson ==> o == Failed(ParseError)
    ensures (AcceptedId(argv).Ok? && template.Parsed? && !template.value.JObject? && !template.value.JArray?)
              ==> o == Failed(TypeError)
    ensures (AcceptedId(argv).Ok? && template.Parsed? && (template.value.JObject? || template.value.JArray?)
             && !writeSucceeds)
              ==> o == Failed(WriteError)
    ensures o.Written? <==>
              && AcceptedId(argv).Ok?
              && template.Parsed?
              && (template.value.JObject? || template.value.JArray?)
              && writeSucceeds
    ensures o.Written? ==> o.path == TargetPath(AcceptedId(argv).id)
    ensures o.Written? && template.value.JObject? ==>
              && o.content == JObject(Transformed(template.value.fields, AcceptedId(argv).id))
              && (o.rpcChanged <==>
                    Lookup(template.value.fields, RpcKey) == Some(JString(RpcPlaceholder)))
    ensures o.Written? && template.value.JArray? ==> o.content == template.value && !o.rpcChanged
  {
    var validated := AcceptedId(argv);
    if validated.MissingArgument? {
      return Failed(MissingArgument);
    }
    if validated.InvalidArgument? {
      return Failed(InvalidArgument);
    }
    var id := validated.id;
    var targetPath := TargetPath(id);
    match template {
      case ReadFailed =>
        return Failed(ReadError);
      case NotJson =>
        return Failed(ParseError);
      case Parsed(value) =>
        match value {
          case JObject(parsed) =>
            var chainConfig := new ChainConfig(parsed);
            var rpcChanged := chainConfig.ApplyChainId(id);
            if !writeSucceeds {
              return Failed(WriteError);
            }
            return Written(targetPath, JObject(chainConfig.fields), rpcChanged);
          case JArray(_) =>
            if !writeSucceeds {
              return Failed(WriteError);
            }
            return Written(targetPath, value, false);
          case _ =>
            return Failed(TypeError);
        }
    }
  }

  /**
   * Example: the placeholder template run with
   * `--chainId=12345` becomes `12345.json` with `name`, `chainId` and `rpc`
   * rewritten and `extra` kept.
   */
  lemma {:induction false} ExamplePlaceholderTemplate()
    ensures var template := map[NameKey := JString("base-sepolia"), ChainIdKey := JString("84532"),
                                RpcKey := JString(RpcPlaceholder), "extra" := JBool(true)];
            Transformed(template, "12345")
            == map[NameKey := JString("12345"), ChainIdKey := JString("12345"),
                   RpcKey := JString("http://host.docker.internal:12345"), "extra" := JBool(true)]
  {
    var template := map[NameKey := JString("base-sepolia"), ChainIdKey := JString("84532"),
                        RpcKey := JString(RpcPlaceholder), "extra" := JBool(true)];
    assert "extra" != NameKey && "extra" != ChainIdKey && "extra" != RpcKey;
    assert LocalRpcUrl("12345") == "http://host.docker.internal:12345";
    assert Lookup(template[NameKey := JString("12345")][ChainIdKey := JString("12345")], RpcKey)
           == Some(JString(RpcPlaceholder));
  }

  /** A custom `rpc` survives: run with `--chainId=999` it stays as it was. */
  lemma {:induction false} ExampleCustomRpc()
    ensures var template := map[NameKey := JString("base-sepolia"), ChainIdKey := JString("84532"),
                                RpcKey := JString("https://custom.example/rpc"), "extra" := JBool(true)];
            Transformed(template, "999")[RpcKey] == JString("https://custom.example/rpc")
  {
    assert "https://custom.example/rpc"[0] != RpcPlaceholder[0];
  }
}
