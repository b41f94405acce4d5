/** Credentials and targets (raduga/aws/__init__.py): tag parsing, the credential view
    that is safe to print, the interactive questionnaire and the S3 bucket name. */
module Aws {
  import opened Wrappers
  import opened Strings
  import opened Dicts

  /** A credential option value: a string, a tag dictionary (its items in order), or a
      value of some other Python type. */
  datatype Value = Str(s: string) | Dict(items: seq<(string, string)>) | Other(typeName: string)

  /** `Credentials(**options)` */
  datatype Credentials = Credentials(options: map<string, Value>)

  // ---------------------------------------------------------------- _tags_to_dict

  /** `map(lambda kv: kv.split('='), tokens)` fed to `dict`: every token must split into
      exactly a key and a value. */
  function ParsePairs(tokens: seq<string>): (r: Result<seq<(string, string)>>)
    ensures r.Ok? <==> forall i | 0 <= i < |tokens| :: |Split(tokens[i], '=')| == 2
    ensures r.Err? ==> r.error.ValueError?
    ensures r.Ok? ==> (|r.value| == |tokens| &&
              forall i | 0 <= i < |tokens| :: Split(tokens[i], '=') == [r.value[i].0, r.value[i].1])
    decreases |tokens|
  {
    if tokens == [] then Ok([])
    else
      var kv := Split(tokens[0], '=');
      if |kv| != 2 then Err(ValueError("dictionary update sequence element has wrong length; 2 is required"))
      else match ParsePairs(tokens[1..])
        case Err(e) => Err(e)
        case Ok(rest) =>
          assert forall i | 1 <= i < |tokens| :: tokens[i] == tokens[1..][i - 1];
          Ok([(kv[0], kv[1])] + rest)
  }

  /** Every comma-separated token of `s` is a key and a value separated by '='. */
  predicate WellFormedTags(s: string)
  {
    var tokens := Split(s, ',');
    forall i | 0 <= i < |tokens| :: |Split(tokens[i], '=')| == 2
  }

  /** `_tags_to_dict(s)`: "k1=v1,k2=v2" becomes {k1: v1, k2: v2}. */
  function TagsToDict(s: string): (r: Result<seq<(string, string)>>)
    ensures r.Ok? <==> WellFormedTags(s)
    ensures r.Err? ==> r.error.ValueError?
    ensures r.Ok? ==> DistinctKeys(r.value)
  {
    var tokens := Split(s, ',');
    var parsed := ParsePairs(tokens);
    if parsed.Err? then
      Err(parsed.error)
    else Ok(DictOf(parsed.value))
  }

  /** The text `_tags_to_dict` reads back: `k=v` tokens joined by commas. */
  function RenderTags(ps: seq<(string, string)>): string
    requires |ps| >= 1
  {
    Join(RenderTokens(ps), ',')
  }

  function RenderTokens(ps: seq<(string, string)>): (tokens: seq<string>)
    ensures |tokens| == |ps|
    ensures forall i | 0 <= i < |ps| :: tokens[i] == ps[i].0 + "=" + ps[i].1
  {
    seq(|ps|, i requires 0 <= i < |ps| => ps[i].0 + "=" + ps[i].1)
  }

  /** One `k=v` token, with neither part containing a separator, splits back into its parts. */
  lemma TokenRoundTrip(k: string, v: string)
    requires ',' !in k && '=' !in k && ',' !in v && '=' !in v
    ensures ',' !in k + "=" + v
    ensures Split(k + "=" + v, '=') == [k, v]
  {
    assert k + "=" + v == Join([k, v], '=');
    SplitJoin([k, v], '=');
  }

  /** A later token with the same key wins. */
  lemma TagsToDictLastWins(s: string, i: nat)
    requires TagsToDict(s).Ok?
    requires i < |Split(s, ',')|
    requires forall j | i < j < |Split(s, ',')| :: Split(Split(s, ',')[j], '=')[0] != Split(Split(s, ',')[i], '=')[0]
    ensures var kv := Split(Split(s, ',')[i], '=');
            kv[0] in FromPairs(TagsToDict(s).value) && FromPairs(TagsToDict(s).value)[kv[0]] == kv[1]
  {
    var tokens := Split(s, ',');
    var ps := ParsePairs(tokens).value;
    LastWins(ps, i);
  }

  /** Tokens that each split into the key and value of the matching pair parse to those pairs. */
  lemma ParsePairsOf(tokens: seq<string>, ps: seq<(string, string)>)
    requires |tokens| == |ps|
    requires forall i | 0 <= i < |ps| :: Split(tokens[i], '=') == [ps[i].0, ps[i].1]
    ensures ParsePairs(tokens) == Ok(ps)
  {
    var r := ParsePairs(tokens);
    assert r.Ok? by {
      forall i | 0 <= i < |tokens| ensures |Split(tokens[i], '=')| == 2 {
        assert Split(tokens[i], '=') == [ps[i].0, ps[i].1];
      }
    }
    forall i | 0 <= i < |ps| ensures r.value[i] == ps[i] {
      PairFromParts(r.value[i], ps[i]);
    }
    assert r.value == ps;
  }

  lemma PairFromParts(x: (string, string), y: (string, string))
    requires [x.0, x.1] == [y.0, y.1]
    ensures x == y
  {
    assert x.0 == [x.0, x.1][0] && x.1 == [x.0, x.1][1];
  }

  /** Rendering tags and parsing them back gives the same dictionary, when no key or value
      contains ',' or '='. */
  lemma TagsRoundTrip(ps: seq<(string, string)>)
    requires |ps| >= 1
    requires forall i | 0 <= i < |ps| :: ',' !in ps[i].0 && '=' !in ps[i].0 && ',' !in ps[i].1 && '=' !in ps[i].1
    ensures TagsToDict(RenderTags(ps)) == Ok(DictOf(ps))
  {
    var tokens := RenderTokens(ps);
    forall i | 0 <= i < |ps| ensures ',' !in tokens[i] && Split(tokens[i], '=') == [ps[i].0, ps[i].1] {
      TokenRoundTrip(ps[i].0, ps[i].1);
    }
    SplitJoin(tokens, ',');
    ParsePairsOf(tokens, ps);
  }

  /** The tags "k1=v1,k2=v2" parse to their two pairs. */
  lemma TagsToDictExample(ps: seq<(string, string)>)
    requires ps == [("k1", "v1"), ("k2", "v2")]
    ensures TagsToDict(RenderTags(ps)) == Ok(ps)
  {
    forall i | 0 <= i < |ps| ensures ',' !in ps[i].0 && '=' !in ps[i].0 && ',' !in ps[i].1 && '=' !in ps[i].1 {
      assert ps[i] in [("k1", "v1"), ("k2", "v2")];
    }
    TagsRoundTrip(ps);
    DictOfExample();
  }

  /** Those pairs render as "k1=v1,k2=v2". */
  lemma RenderTagsExample(ps: seq<(string, string)>)
    requires ps == [("k1", "v1"), ("k2", "v2")]
    ensures RenderTags(ps) == "k1=v1,k2=v2"
  {
    var tokens := RenderTokens(ps);
    assert tokens[0] == "k1=v1" && tokens[1] == "k2=v2";
    assert tokens[1..] == [tokens[1]];
    assert Join(tokens, ',') == tokens[0] + [','] + tokens[1];
  }

  lemma DictOfExample()
    ensures DictOf([("k1", "v1"), ("k2", "v2")]) == [("k1", "v1"), ("k2", "v2")]
  {
    var ps := [("k1", "v1"), ("k2", "v2")];
    assert ps[..1] == [("k1", "v1")];
    assert DictOf(ps[..1]) == [("k1", "v1")];
    assert "k2" !in KeysOf(DictOf(ps[..1]));
  }

  /** A token without '=' is an error. */
  lemma TagsToDictMissingValue()
    ensures TagsToDict("k1").Err?
  {
    SplitNoSeparator("k1", ',');
    SplitNoSeparator("k1", '=');
  }

  /** A token with two '=' is an error. */
  lemma TagsToDictTwoSeparators()
    ensures TagsToDict("a=b=c").Err?
  {
    SplitNoSeparator("a=b=c", ',');
    assert "a=b=c" == "a" + ['='] + "b=c";
    assert "b=c" == "b" + ['='] + "c";
    SplitAfterPiece("a", '=', "b=c");
    SplitAfterPiece("b", '=', "c");
    SplitNoSeparator("c", '=');
  }

  // ---------------------------------------------------------------- Credentials

  /** `Credentials.from_dict_items(items)` */
  function FromDictItems(items: seq<(string, Value)>): (c: Credentials)
    ensures c.options.Keys == KeysOf(items)
  {
    Credentials(FromPairs(items))
  }

  /** The options `Credentials.__str__` prints: the access key and the tags, never the
      secret key. */
  function StrView(c: Credentials): (v: map<string, Value>)
    ensures "aws_secret_key" !in v
    ensures forall k :: k in v <==> k in c.options && (k == "aws_access_key" || k == "tags")
    ensures forall k | k in v :: v[k] == c.options[k]
  {
    map k | k in c.options && (k == "aws_access_key" || k == "tags") :: c.options[k]
  }

  /** One entry of `Credentials._recognized_options`. */
  datatype Opt = Opt(name: string, description: string, default: Option<string>)

  /** `Credentials._recognized_options`, in order. */
  function RecognizedOptions(): seq<Opt>
  {
    [
      Opt("aws_access_key", "Provided access key", None),
      Opt("aws_secret_key", "Provided secret key", None),
      Opt("default_region", "Default AWS region to operate on", Some("us-east-1")),
      Opt("tags", "Tags, specified as comma separated key=value tokens", None)
    ]
  }

  ghost predicate DistinctNames(opts: seq<Opt>)
  {
    forall i, j | 0 <= i < j < |opts| :: opts[i].name != opts[j].name
  }

  /** What one answer contributes: nothing when it is blank and the option has no default,
      otherwise the answer (or the default), parsed as tags for the `tags` option. */
  function Answer(opt: Opt, raw: string): (r: Result<Option<Value>>)
    ensures Strip(raw) == [] && opt.default.None? ==> r == Ok(None)
    ensures Strip(raw) == [] && opt.default.Some? && opt.name != "tags" ==> r == Ok(Some(Str(opt.default.value)))
    ensures Strip(raw) != [] && opt.name != "tags" ==> r == Ok(Some(Str(Strip(raw))))
    ensures Strip(raw) != [] && opt.name == "tags" ==>
              r == (match TagsToDict(Strip(raw)) case Ok(d) => Ok(Some(Dict(d))) case Err(e) => Err(e))
  {
    var v := Strip(raw);
    if v == [] && opt.default.None? then Ok(None)
    else
      var v := if v == [] then opt.default.value else v;
      if opt.name == "tags" then
        match TagsToDict(v)
        case Ok(d) => Ok(Some(Dict(d)))
        case Err(e) => Err(e)
      else Ok(Some(Str(v)))
  }

  /** The questionnaire over `opts`, one answer per option, filling `ret`. */
  function Fill(opts: seq<Opt>, answers: seq<string>, ret: map<string, Value>): Result<map<string, Value>>
    decreases |opts|
  {
    if opts == [] then Ok(ret)
    else if answers == [] then Err(EOFError)
    else match Answer(opts[0], answers[0])
      case Err(e) => Err(e)
      case Ok(None) => Fill(opts[1..], answers[1..], ret)
      case Ok(Some(v)) => Fill(opts[1..], answers[1..], ret[opts[0].name := v])
  }

  /** The input runs out exactly when there are fewer answers than options and none of
      the answers given was rejected. */
  lemma {:induction false} FillRunsOut(opts: seq<Opt>, answers: seq<string>, ret: map<string, Value>)
    ensures Fill(opts, answers, ret) == Err(EOFError) <==>
              |answers| < |opts| && forall i | 0 <= i < |answers| :: Answer(opts[i], answers[i]).Ok?
    decreases |opts|
  {
    if opts != [] && answers != [] {
      match Answer(opts[0], answers[0])
      case Err(e) =>
        assert e.ValueError?;
      case Ok(a) =>
        var ret' := if a.Some? then ret[opts[0].name := a.value] else ret;
        FillRunsOut(opts[1..], answers[1..], ret');
        assert forall i | 1 <= i < |answers| :: answers[i] == answers[1..][i - 1];
        assert forall i | 1 <= i < |opts| :: opts[i] == opts[1..][i - 1];
    }
  }

  /** After a successful questionnaire each option holds what its answer contributed, and
      an option whose answer contributed nothing is absent. */
  lemma {:induction false} FillContents(opts: seq<Opt>, answers: seq<string>, ret: map<string, Value>, i: nat)
    requires DistinctNames(opts)
    requires Fill(opts, answers, ret).Ok?
    requires i < |opts|
    ensures i < |answers| && Answer(opts[i], answers[i]).Ok?
    ensures var m := Fill(opts, answers, ret).value;
            var a := Answer(opts[i], answers[i]).value;
            (a.Some? ==> opts[i].name in m && m[opts[i].name] == a.value) &&
            (a.None? && opts[i].name !in ret ==> opts[i].name !in m)
    decreases |opts|
  {
    var a := Answer(opts[0], answers[0]).value;
    var ret' := if a.Some? then ret[opts[0].name := a.value] else ret;
    assert Fill(opts, answers, ret) == Fill(opts[1..], answers[1..], ret');
    if |opts| == 1 {
      assert opts[1..] == [];
    } else {
      var j := if i == 0 then 0 else i - 1;
      FillContents(opts[1..], answers[1..], ret', j);
      if i > 0 {
        assert opts[1..][i - 1] == opts[i] && answers[1..][i - 1] == answers[i];
        assert opts[i].name != opts[0].name;
      } else {
        KeptThroughFill(opts[1..], answers[1..], ret', opts[0].name);
      }
    }
  }

  /** The option names, in order. */
  function Names(opts: seq<Opt>): seq<string>
  {
    seq(|opts|, i requires 0 <= i < |opts| => opts[i].name)
  }

  /** The questionnaire adds no key that is not an option name. */
  lemma {:induction false} FillKeys(opts: seq<Opt>, answers: seq<string>, ret: map<string, Value>)
    requires Fill(opts, answers, ret).Ok?
    ensures forall k | k in Fill(opts, answers, ret).value :: k in ret || k in Names(opts)
    decreases |opts|
  {
    if opts != [] {
      var a := Answer(opts[0], answers[0]).value;
      var ret' := if a.Some? then ret[opts[0].name := a.value] else ret;
      FillKeys(opts[1..], answers[1..], ret');
      var m := Fill(opts, answers, ret).value;
      assert Fill(opts, answers, ret) == Fill(opts[1..], answers[1..], ret');
      forall k | k in m ensures k in ret || k in Names(opts) {
        if k !in ret' {
          var j :| 0 <= j < |opts| - 1 && Names(opts[1..])[j] == k;
          assert Names(opts)[j + 1] == k;
        } else if k !in ret {
          assert Names(opts)[0] == k;
        }
      }
    }
  }

  /** A name no remaining option has keeps its value (or its absence) through the rest of
      the questionnaire. */
  lemma {:induction false} KeptThroughFill(opts: seq<Opt>, answers: seq<string>, ret: map<string, Value>, k: string)
    requires forall j | 0 <= j < |opts| :: opts[j].name != k
    requires Fill(opts, answers, ret).Ok?
    ensures k in Fill(opts, answers, ret).value <==> k in ret
    ensures k in ret ==> Fill(opts, answers, ret).value[k] == ret[k]
    decreases |opts|
  {
    if opts != [] {
      var a := Answer(opts[0], answers[0]).value;
      var ret' := if a.Some? then ret[opts[0].name := a.value] else ret;
      assert forall j | 0 <= j < |opts[1..]| :: opts[1..][j] == opts[j + 1];
      KeptThroughFill(opts[1..], answers[1..], ret', k);
    }
  }

  /** `Credentials.from_interactive()`, with the lines typed at the prompt as `answers`.
      The prompts themselves are not modelled. */
  method FromInteractive(answers: seq<string>) returns (r: Result<Credentials>)
    ensures r == (match Fill(RecognizedOptions(), answers, map[])
                  case Ok(m) => Ok(Credentials(m))
                  case Err(e) => Err(e))
  {
    var ret: map<string, Value> := map[];
    var i := 0;
    while i < |RecognizedOptions()|
      invariant 0 <= i <= |RecognizedOptions()| && i <= |answers|
      invariant Fill(RecognizedOptions(), answers, map[]) == Fill(RecognizedOptions()[i..], answers[i..], ret)
    {
      var opt := RecognizedOptions()[i];
      if i == |answers| {
        return Err(EOFError);
      }
      var v := Strip(answers[i]);
      assert RecognizedOptions()[i..][1..] == RecognizedOptions()[i + 1..];
      assert answers[i..][1..] == answers[i + 1..];
      if v == "" {
        if opt.default.None? {
          i := i + 1;
          continue;
        }
        v := opt.default.value;
      }
      if opt.name == "tags" {
        var d := TagsToDict(v);
        if d.Err? {
          return Err(d.error);
        }
        ret := ret[opt.name := Dict(d.value)];
      } else {
        ret := ret[opt.name := Str(v)];
      }
      i := i + 1;
    }
    assert RecognizedOptions()[i..] == [];
    r := Ok(Credentials(ret));
  }

  /** What `from_interactive` promises of its result, option by option. */
  lemma InteractiveAnswers(opts: seq<Opt>, answers: seq<string>, i: nat)
    requires DistinctNames(opts)
    requires Fill(opts, answers, map[]).Ok?
    requires i < |opts|
    ensures i < |answers|
    ensures var m := Fill(opts, answers, map[]).value;
            var opt := opts[i];
            var v := Strip(answers[i]);
            (v == [] && opt.default.None? ==> opt.name !in m) &&
            (v == [] && opt.default.Some? && opt.name != "tags" ==> opt.name in m && m[opt.name] == Str(opt.default.value)) &&
            (v != [] && opt.name != "tags" ==> opt.name in m && m[opt.name] == Str(v)) &&
            (v != [] && opt.name == "tags" ==> TagsToDict(v).Ok? && opt.name in m && m[opt.name] == Dict(TagsToDict(v).value))
  {
    FillContents(opts, answers, map[], i);
  }

  /** The recognized options have distinct names, and only `default_region` has a
      default, "us-east-1". */
  lemma RecognizedOptionsShape()
    ensures DistinctNames(RecognizedOptions())
    ensures forall i | 0 <= i < |RecognizedOptions()| ::
              RecognizedOptions()[i].default.Some? <==> RecognizedOptions()[i].name == "default_region"
    ensures RecognizedOptions()[2] == Opt("default_region", "Default AWS region to operate on", Some("us-east-1"))
  {
  }

  // ---------------------------------------------------------------- Target

  /** The characters `re.sub(r'[^\w\-]', "-", ...)` keeps. */
  predicate BucketChar(c: char)
  {
    'a' <= c <= 'z' || 'A' <= c <= 'Z' || '0' <= c <= '9' || c == '_' || c == '-'
  }

  /** `re.sub(r'[^\w\-]', "-", s)` */
  function Sanitize(s: string): string
  {
    seq(|s|, i requires 0 <= i < |s| => if BucketChar(s[i]) then s[i] else '-')
  }

  /** Sanitizing keeps the length and every permitted character, replaces the others by
      '-', and a second pass changes nothing. */
  lemma SanitizeClean(s: string)
    ensures |Sanitize(s)| == |s|
    ensures forall i | 0 <= i < |s| :: BucketChar(Sanitize(s)[i])
    ensures forall i | 0 <= i < |s| :: BucketChar(s[i]) ==> Sanitize(s)[i] == s[i]
    ensures forall i | 0 <= i < |s| :: !BucketChar(s[i]) ==> Sanitize(s)[i] == '-'
    ensures Sanitize(Sanitize(s)) == Sanitize(s)
  {
  }

  /** `_infer_cfn_bucket_name`, given the ARN IAM reports for the user. */
  function InferCfnBucketName(arn: string): (r: Result<string>)
    ensures r.Ok? <==> |Split(arn, ':')| >= 6
    ensures r.Err? ==> r.error == IndexError
  {
    var t := Split(arn, ':');
    if |t| < 6 then Err(IndexError) else Ok("raduga-cfn-" + t[4] + "-" + Sanitize(t[5]))
  }

  /** For an ARN made of colon-free fields: the account field, then the sanitized
      resource field. */
  lemma BucketNameFromFields(fields: seq<string>)
    requires |fields| >= 6
    requires forall i | 0 <= i < |fields| :: ':' !in fields[i]
    ensures InferCfnBucketName(Join(fields, ':')) == Ok("raduga-cfn-" + fields[4] + "-" + Sanitize(fields[5]))
  {
    SplitJoin(fields, ':');
  }

  /** The ARN arn:aws:iam::123456789012:user/deploy, given by its fields. */
  lemma BucketNameExample(fields: seq<string>)
    requires fields == ["arn", "aws", "iam", "", "123456789012", "user/deploy"]
    ensures InferCfnBucketName(Join(fields, ':')) == Ok("raduga-cfn-123456789012-user-deploy")
  {
    ExampleFieldsPlain(fields);
    BucketNameFromFields(fields);
    SanitizeExample();
    NameExample("raduga-cfn-" + fields[4] + "-" + Sanitize(fields[5]));
  }

  lemma NameExample(name: string)
    requires name == "raduga-cfn-" + "123456789012" + "-" + "user-deploy"
    ensures name == "raduga-cfn-123456789012-user-deploy"
  {
  }

  lemma ExampleFieldsPlain(fields: seq<string>)
    requires fields == ["arn", "aws", "iam", "", "123456789012", "user/deploy"]
    ensures forall i | 0 <= i < |fields| :: ':' !in fields[i]
  {
    forall i | 0 <= i < |fields| ensures ':' !in fields[i] {
      assert fields[i] in ["arn", "aws", "iam", "", "123456789012", "user/deploy"];
    }
  }

  lemma SanitizeExample()
    ensures Sanitize("user/deploy") == "user-deploy"
  {
    var r := Sanitize("user/deploy");
    assert forall i | 0 <= i < 11 :: r[i] == "user-deploy"[i];
  }

  /** A `Target`'s fields; `cfnBucketName` is None where the source leaves the attribute unset. */
  datatype Target = Target(region: Option<Value>, accessKey: Option<Value>, secretKey: Option<Value>,
                           cfnBucketName: Option<string>)

  /** `Target(credentials=..., region=...)`, with `iamArn` the ARN IAM reports for the
      credentials' user. `credentials=None` passes the `has_key` test, and reading its
      `options` is then an `AttributeError`. */
  function NewTarget(credentials: Arg<Credentials>, region: Arg<Value>, iamArn: string): (r: Result<Target>)
    ensures credentials.Absent? ==> r.Ok? && r.value.accessKey.None? && r.value.secretKey.None? && r.value.cfnBucketName.None?
    ensures credentials.Null? ==> r == Err(AttributeError("options"))
    ensures credentials.Given? ==>
              var o := credentials.value.options;
              (r.Ok? <==> "default_region" in o && "aws_access_key" in o && "aws_secret_key" in o && |Split(iamArn, ':')| >= 6) &&
              ("default_region" !in o ==> r == Err(KeyError("default_region"))) &&
              ("default_region" in o && "aws_access_key" !in o ==> r == Err(KeyError("aws_access_key"))) &&
              ("default_region" in o && "aws_access_key" in o && "aws_secret_key" !in o ==> r == Err(KeyError("aws_secret_key"))) &&
              (r.Ok? ==> r.value.accessKey == Some(o["aws_access_key"]) && r.value.secretKey == Some(o["aws_secret_key"]) &&
                         r.value.cfnBucketName == Some(InferCfnBucketName(iamArn).value))
    ensures r.Ok? && region.Given? ==> GetRegion(r.value) == Some(region.value)
    ensures r.Ok? && region.Null? ==> GetRegion(r.value) == None
    ensures r.Ok? && region.Absent? ==>
              GetRegion(r.value) == (if credentials.Given? then Some(credentials.value.options["default_region"]) else None)
  {
    var base :=
      if credentials.Absent? then Ok(Target(None, None, None, None))
      else if credentials.Null? then Err(AttributeError("options"))
      else
        var o := credentials.value.options;
        if "default_region" !in o then Err(KeyError("default_region"))
        else if "aws_access_key" !in o then Err(KeyError("aws_access_key"))
        else if "aws_secret_key" !in o then Err(KeyError("aws_secret_key"))
        else match InferCfnBucketName(iamArn)
          case Err(e) => Err(e)
          case Ok(b) => Ok(Target(Some(o["default_region"]), Some(o["aws_access_key"]), Some(o["aws_secret_key"]), Some(b)));
    match base
    case Err(e) => Err(e)
    case Ok(t) =>
      match region
      case Absent => Ok(t)
      case Null => Ok(t.(region := None))
      case Given(v) => Ok(t.(region := Some(v)))
  }

  /** `Target.get_region` */
  function GetRegion(t: Target): Option<Value>
  {
    t.region
  }
}
