/** The credential store (raduga/config.py): credentials are kept in sections of a
    ConfigParser, one section `cr-<name>` per set, with option values encoded as text. */
module Config {
  import opened Wrappers
  import opened Strings
  import opened Dicts
  import opened Aws

  /** A ConfigParser section: its name and its options in insertion order. */
  datatype Section = Section(name: string, options: seq<(string, string)>)

  /** `"cr-" + name` */
  function SectionName(name: string): string
  {
    "cr-" + name
  }

  /** Whether a section of that name exists. */
  predicate HasSection(sections: seq<Section>, section: string)
  {
    exists i | 0 <= i < |sections| :: sections[i].name == section
  }

  /** No two sections share a name, as ConfigParser guarantees. */
  ghost predicate DistinctSections(sections: seq<Section>)
  {
    forall i, j | 0 <= i < j < |sections| :: sections[i].name != sections[j].name
  }

  /** The position of the section of that name. */
  function FindSection(sections: seq<Section>, section: string): (r: Option<nat>)
    ensures r.None? <==> !HasSection(sections, section)
    ensures r.Some? ==> r.value < |sections| && sections[r.value].name == section
    ensures r.Some? && DistinctSections(sections) ==>
              forall j | 0 <= j < |sections| && sections[j].name == section :: j == r.value
    decreases |sections|
  {
    if sections == [] then None
    else if sections[0].name == section then Some(0)
    else match FindSection(sections[1..], section)
      case None =>
        assert forall i | 1 <= i < |sections| :: sections[i] == sections[1..][i - 1];
        None
      case Some(i) =>
        assert sections[i + 1] == sections[1..][i];
        assert forall j | 1 <= j < |sections| :: sections[j] == sections[1..][j - 1];
        Some(i + 1)
  }

  // ---------------------------------------------------------------- value encoding

  /** The characters whose `repr` is the character itself: printable ASCII other than the
      quote and the backslash. */
  predicate PlainChar(c: char)
  {
    ' ' <= c <= '~' && c != '\'' && c != '\\'
  }

  predicate PlainString(s: string)
  {
    forall i | 0 <= i < |s| :: PlainChar(s[i])
  }

  /** `repr(s)` of a string of plain characters. */
  function Quote(s: string): string
  {
    "'" + s + "'"
  }

  /** The entries of `str(d)` for a dictionary of strings, ", "-separated. */
  function RenderItems(items: seq<(string, string)>): string
    decreases |items|
  {
    if items == [] then ""
    else if |items| == 1 then Quote(items[0].0) + ": " + Quote(items[0].1)
    else Quote(items[0].0) + ": " + Quote(items[0].1) + ", " + RenderItems(items[1..])
  }

  /** `"dict(%s)" % str(v)` */
  function RenderDict(items: seq<(string, string)>): string
  {
    "dict({" + RenderItems(items) + "})"
  }

  function UnhandledMessage(typeName: string): string
  {
    "Unhandled conf value type: <type '" + typeName + "'>"
  }

  /** How `add_credentials` stores a value: a string as itself, a dictionary as
      `dict(...)` around its text; any other type is refused. */
  function EncodeValue(v: Value): (r: Result<string>)
    ensures r.Err? <==> v.Other?
    ensures v.Str? ==> r == Ok(v.s)
    ensures v.Dict? ==> r.Ok? && StartsWith(r.value, "dict(")
    ensures v.Other? ==> r == Err(RuntimeError(UnhandledMessage(v.typeName)))
  {
    match v
    case Str(s) => Ok(s)
    case Dict(items) => Ok(RenderDict(items))
    case Other(t) => Err(RuntimeError(UnhandledMessage(t)))
  }

  // ---------------------------------------------------------------- SafeConfigParser.set

  /** `value.replace('%%', '')`: pairs of `%` removed, scanning from the left. */
  function DropDoubled(s: string): string
    decreases |s|
  {
    if s == [] then []
    else if |s| >= 2 && s[0] == '%' && s[1] == '%' then DropDoubled(s[2..])
    else [s[0]] + DropDoubled(s[1..])
  }

  /** Removing `%%` only deletes characters. */
  lemma {:induction false} DropDoubledChars(s: string)
    ensures forall c | c in DropDoubled(s) :: c in s
    decreases |s|
  {
    if |s| >= 2 && s[0] == '%' && s[1] == '%' {
      DropDoubledChars(s[2..]);
    } else if s != [] {
      DropDoubledChars(s[1..]);
    }
  }

  /** The position of the first `)` in `s`, if any. */
  function CloseAt(s: string): (r: Option<nat>)
    ensures r.Some? ==> r.value < |s| && s[r.value] == ')' && forall j | 0 <= j < r.value :: s[j] != ')'
    ensures r.None? ==> forall j | 0 <= j < |s| :: s[j] != ')'
    decreases |s|
  {
    if s == [] then None
    else if s[0] == ')' then Some(0)
    else match CloseAt(s[1..])
      case None => None
      case Some(j) => Some(j + 1)
  }

  /** The length of the `%(name)s` reference at the start of `s`, if one is there: `%(`,
      one or more characters other than `)`, then `)s`. */
  function VarRefAt(s: string): (r: Option<nat>)
    ensures r.Some? ==> 5 <= r.value <= |s| && s[0] == '%' && s[1] == '(' && s[r.value - 2] == ')' && s[r.value - 1] == 's'
                        && forall j | 2 <= j < r.value - 2 :: s[j] != ')'
  {
    if |s| < 2 || s[0] != '%' || s[1] != '(' then None
    else match CloseAt(s[2..])
      case None => None
      case Some(j) =>
        if j >= 1 && j + 3 < |s| + 1 && |s| > j + 3 && s[j + 3] == 's' then
          assert forall k | 2 <= k < j + 2 :: s[k] == s[2..][k - 2];
          Some(j + 4)
        else None
  }

  /** `_interpvar_re.sub('', value)`: every `%(name)s` reference removed, scanning from
      the left. */
  function DropVarRefs(s: string): string
    decreases |s|
  {
    if s == [] then []
    else match VarRefAt(s)
      case Some(n) => DropVarRefs(s[n..])
      case None => [s[0]] + DropVarRefs(s[1..])
  }

  /** Removing references only deletes characters. */
  lemma {:induction false} DropVarRefsChars(s: string)
    ensures forall c | c in DropVarRefs(s) :: c in s
    decreases |s|
  {
    if s != [] {
      match VarRefAt(s)
      case Some(n) => DropVarRefsChars(s[n..]);
      case None => DropVarRefsChars(s[1..]);
    }
  }

  /** SafeConfigParser's `set` accepts a value exactly when no `%` is left once the
      escaped `%%` and the `%(name)s` references are taken out. */
  predicate SetAccepts(value: string)
  {
    '%' !in DropVarRefs(DropDoubled(value))
  }

  /** A value without `%` is always accepted. */
  lemma NoPercentAccepted(value: string)
    requires '%' !in value
    ensures SetAccepts(value)
  {
    DropDoubledChars(value);
    DropVarRefsChars(DropDoubled(value));
  }

  /** Text without `%` passes through both removals unchanged. */
  lemma {:induction false} DropDoubledPlain(a: string, b: string)
    requires '%' !in a
    ensures DropDoubled(a + b) == a + DropDoubled(b)
    decreases |a|
  {
    if a == [] {
      assert a + b == b;
    } else {
      assert a[0] in a;
      assert (a + b)[0] == a[0] && (a + b)[1..] == a[1..] + b;
      DropDoubledPlain(a[1..], b);
      assert DropDoubled(a + b) == [a[0]] + DropDoubled(a[1..] + b);
      assert a == [a[0]] + a[1..];
    }
  }

  lemma {:induction false} DropVarRefsPlain(a: string, b: string)
    requires '%' !in a
    ensures DropVarRefs(a + b) == a + DropVarRefs(b)
    decreases |a|
  {
    if a == [] {
      assert a + b == b;
    } else {
      assert a[0] in a;
      assert (a + b)[0] == a[0] && (a + b)[1..] == a[1..] + b;
      assert VarRefAt(a + b).None?;
      DropVarRefsPlain(a[1..], b);
      assert a == [a[0]] + a[1..];
    }
  }

  /** A `%` followed neither by `%` nor by `(` is rejected: `discount=50%` cannot be stored. */
  lemma LonePercentRejected(a: string, b: string)
    requires '%' !in a && '%' !in b
    requires b == [] || b[0] != '(' 
    ensures !SetAccepts(a + "%" + b)
  {
    DropDoubledPlain(a, "%" + b);
    assert ("%" + b)[1..] == b;
    DropDoubledPlain(b, []);
    assert b + [] == b;
    assert DropDoubled("%" + b) == "%" + b;
    DropVarRefsPlain(a, "%" + b);
    DropVarRefsPlain(b, []);
    assert DropVarRefs("%" + b) == "%" + b;
    assert (a + "%" + b) == a + ("%" + b);
    assert (a + ("%" + b))[|a|] == '%';
  }

  lemma DictWithLonePercentRejected()
    ensures !SetAccepts("dict({'discount': '50%'})")
  {
    LonePercentRejected("dict({'discount': '50", "'})");
    assert "dict({'discount': '50" + "%" + "'})" == "dict({'discount': '50%'})";
  }

  /** An escaped percent is accepted. */
  lemma EscapedPercentAccepted()
    ensures SetAccepts("50%%")
  {
    DropDoubledPlain("50", "%%");
    assert "50" + "%%" == "50%%";
  }

  lemma {:induction false} CloseAtPlain(a: string, b: string)
    requires ')' !in a && b != [] && b[0] == ')'
    ensures CloseAt(a + b) == Some(|a|)
    decreases |a|
  {
    if a == [] {
      assert a + b == b;
    } else {
      assert a[0] in a;
      assert (a + b)[0] == a[0] && (a + b)[1..] == a[1..] + b;
      CloseAtPlain(a[1..], b);
    }
  }

  lemma VarRefAtClose(s: string, j: nat)
    requires |s| >= 2 && s[0] == '%' && s[1] == '(' && CloseAt(s[2..]) == Some(j)
    requires 1 <= j && j + 3 < |s| && s[j + 3] == 's'
    ensures VarRefAt(s) == Some(j + 4)
  {
  }

  /** A `%` before `(` is not an escape. */
  lemma DropDoubledRef(tail: string)
    requires tail != [] && tail[0] == '(' && '%' !in tail
    ensures DropDoubled("%" + tail) == "%" + tail
  {
    assert ("%" + tail)[1..] == tail && ("%" + tail)[1] == '(';
    DropDoubledPlain(tail, []);
    assert tail + [] == tail;
  }

  /** A reference at the start is dropped as a whole. */
  lemma DropVarRefsRef(name: string, rest: string)
    requires name != [] && ')' !in name
    ensures DropVarRefs("%(" + name + ")s" + rest) == DropVarRefs(rest)
  {
    var v := "%(" + name + ")s" + rest;
    var w := v[2..];
    assert w == name + (")s" + rest);
    CloseAtPlain(name, ")s" + rest);
    assert v[|name| + 3] == 's';
    VarRefAtClose(v, |name|);
    assert v[|name| + 4..] == rest;
  }

  /** A `%(name)s` reference is accepted, as in `%(home)s/bin`. */
  lemma VarRefAccepted(name: string, rest: string)
    requires name != [] && ')' !in name && '%' !in name && '%' !in rest
    ensures SetAccepts("%(" + name + ")s" + rest)
  {
    var v := "%(" + name + ")s" + rest;
    var tail := "(" + name + ")s" + rest;
    assert v == "%" + tail;
    DropDoubledRef(tail);
    DropVarRefsRef(name, rest);
    DropVarRefsPlain(rest, []);
    assert rest + [] == rest;
  }

  /** The error `add_credentials` meets when storing one option: an unhandled type, or a
      text `set` rejects. */
  function StoreError(v: Value): (r: Option<Error>)
    ensures r.None? <==> !v.Other? && SetAccepts(EncodeValue(v).value)
    ensures v.Other? ==> r == Some(RuntimeError(UnhandledMessage(v.typeName)))
    ensures !v.Other? && !SetAccepts(EncodeValue(v).value) ==> r == Some(SetError)
  {
    if v.Other? then Some(RuntimeError(UnhandledMessage(v.typeName)))
    else if !SetAccepts(EncodeValue(v).value) then Some(SetError)
    else None
  }

  const SetError := ValueError("invalid interpolation syntax")

  // ---------------------------------------------------------------- value decoding

  /** The text before the first `c` and the text after it. */
  function TakeUntil(s: string, c: char): (r: Option<(string, string)>)
    ensures r.Some? ==> |r.value.1| < |s| && c !in r.value.0 && s == r.value.0 + [c] + r.value.1
    decreases |s|
  {
    if s == [] then None
    else if s[0] == c then
      assert s == [] + [c] + s[1..];
      Some(([], s[1..]))
    else match TakeUntil(s[1..], c)
      case None => None
      case Some((a, b)) =>
        assert s == [s[0]] + s[1..];
        Some(([s[0]] + a, b))
  }

  /** `'key': 'value'` at the start of `s`, and what follows it. */
  function ParseEntry(s: string): (r: Option<(string, string, string)>)
    ensures r.Some? ==> |r.value.2| < |s|
  {
    if |s| >= 1 && s[0] == '\'' then
      match TakeUntil(s[1..], '\'')
      case None => None
      case Some((k, r1)) =>
        if StartsWith(r1, ": '") then
          match TakeUntil(r1[3..], '\'')
          case None => None
          case Some((v, r2)) => Some((k, v, r2))
        else None
    else None
  }

  /** The entries of a dictionary display, as `RenderItems` writes them. */
  function ParseItems(s: string): Option<seq<(string, string)>>
    decreases |s|
  {
    if s == [] then Some([])
    else match ParseEntry(s)
      case None => None
      case Some((k, v, rest)) =>
        if rest == [] then Some([(k, v)])
        else if StartsWith(rest, ", ") then
          match ParseItems(rest[2..])
          case None => None
          case Some(tail) => Some([(k, v)] + tail)
        else None
  }

  /** `eval(raw)` for `dict({...})` of string entries; other expressions are not modelled. */
  function EvalDict(raw: string): Option<seq<(string, string)>>
  {
    if |raw| >= 8 && raw[..6] == "dict({" && raw[|raw| - 2..] == "})" then
      match ParseItems(raw[6..|raw| - 2])
      case None => None
      case Some(items) => Some(DictOf(items))
    else None
  }

  /** `v.startswith("dict(") and eval(v) or v`: a value that evaluates to an empty
      dictionary is falsy, so the text itself is kept. */
  function DecodeValue(raw: string): (r: Result<Value>)
    ensures !StartsWith(raw, "dict(") ==> r == Ok(Str(raw))
    ensures r.Ok? && r.value.Dict? ==> r.value.items != [] && DistinctKeys(r.value.items)
    ensures r.Ok? ==> r.value.Str? || r.value.Dict?
  {
    if !StartsWith(raw, "dict(") then Ok(Str(raw))
    else match EvalDict(raw)
      case None => Err(SyntaxError(raw))
      case Some(items) => if items == [] then Ok(Str(raw)) else Ok(Dict(items))
  }

  /** `Quote(k) + ": " + Quote(v)` followed by `rest` parses back into `k`, `v` and `rest`. */
  lemma ParseEntryQuoted(k: string, v: string, rest: string)
    requires '\'' !in k && '\'' !in v
    ensures ParseEntry(Quote(k) + ": " + Quote(v) + rest) == Some((k, v, rest))
  {
    var s := Quote(k) + ": " + Quote(v) + rest;
    var r1 := ": '" + v + "'" + rest;
    assert s[1..] == k + ['\''] + r1;
    TakeUntilFirst(k, '\'', r1);
    assert r1[..3] == ": '";
    assert r1[3..] == v + ['\''] + rest;
    TakeUntilFirst(v, '\'', rest);
  }

  lemma {:induction false} TakeUntilFirst(x: string, c: char, rest: string)
    requires c !in x
    ensures TakeUntil(x + [c] + rest, c) == Some((x, rest))
    decreases |x|
  {
    var s := x + [c] + rest;
    if x == [] {
      assert s == [c] + rest;
    } else {
      assert s[1..] == x[1..] + [c] + rest;
      TakeUntilFirst(x[1..], c, rest);
      assert [x[0]] + x[1..] == x;
    }
  }

  /** Entries rendered from plain strings parse back into the same entries. */
  lemma {:induction false} ParseRenderItems(items: seq<(string, string)>)
    requires forall i | 0 <= i < |items| :: PlainString(items[i].0) && PlainString(items[i].1)
    ensures ParseItems(RenderItems(items)) == Some(items)
    decreases |items|
  {
    if items != [] {
      var k, v := items[0].0, items[0].1;
      assert '\'' !in k by { PlainNoQuote(k); }
      assert '\'' !in v by { PlainNoQuote(v); }
      if |items| == 1 {
        ParseEntryQuoted(k, v, "");
        assert Quote(k) + ": " + Quote(v) + "" == RenderItems(items);
        assert items == [(k, v)];
      } else {
        var tail := RenderItems(items[1..]);
        assert Quote(k) + ": " + Quote(v) + (", " + tail) == RenderItems(items);
        ParseItemsCons(k, v, tail);
        assert forall i | 1 <= i < |items| :: items[i] == items[1..][i - 1];
        ParseRenderItems(items[1..]);
        assert [items[0]] + items[1..] == items;
      }
    }
  }

  /** An entry followed by ", " and more entries parses as that entry before them. */
  lemma ParseItemsCons(k: string, v: string, tail: string)
    requires '\'' !in k && '\'' !in v
    ensures ParseItems(Quote(k) + ": " + Quote(v) + (", " + tail)) ==
              (match ParseItems(tail) case None => None case Some(t) => Some([(k, v)] + t))
  {
    ParseEntryQuoted(k, v, ", " + tail);
    assert (", " + tail)[..2] == ", ";
    assert (", " + tail)[2..] == tail;
  }

  lemma PlainNoQuote(s: string)
    requires PlainString(s)
    ensures '\'' !in s
  {
  }

  /** A value whose stored text decodes back to it: a string that does not begin with
      "dict(", or a non-empty dictionary of plain strings. */
  ghost predicate RoundTrips(v: Value)
  {
    match v
    case Str(s) => !StartsWith(s, "dict(")
    case Dict(items) =>
      items != [] && DistinctKeys(items) &&
      forall i | 0 <= i < |items| :: PlainString(items[i].0) && PlainString(items[i].1)
    case Other(_) => false
  }

  /** A value that `get_credentials` reads back unchanged: it round-trips and holds no `%`,
      which `items()` would interpolate on the way out. */
  ghost predicate ReadsBack(v: Value)
  {
    RoundTrips(v) &&
    match v
    case Str(s) => '%' !in s
    case Dict(items) => forall i | 0 <= i < |items| :: '%' !in items[i].0 && '%' !in items[i].1
    case Other(_) => false
  }

  /** Decoding undoes encoding for the values that round-trip. */
  lemma DecodeEncode(v: Value)
    requires RoundTrips(v)
    ensures DecodeValue(EncodeValue(v).value) == Ok(v)
  {
    if v.Dict? {
      var raw := RenderDict(v.items);
      var body := RenderItems(v.items);
      assert raw[..6] == "dict({" && raw[|raw| - 2..] == "})";
      assert raw[6..|raw| - 2] == body;
      assert raw[..5] == "dict(";
      ParseRenderItems(v.items);
      DictOfDistinct(v.items);
    }
  }

  /** The empty dictionary does not round-trip: it is read back as its text. */
  lemma EmptyDictReadAsText()
    ensures DecodeValue(EncodeValue(Dict([])).value) == Ok(Str("dict({})"))
  {
    var raw := RenderDict([]);
    assert raw == "dict({})";
    assert raw[6..|raw| - 2] == "";
  }

  /** A string that looks like a stored dictionary is read back as a dictionary. */
  lemma DictLikeStringReadAsDict()
    ensures DecodeValue(EncodeValue(Str("dict({'a': 'b'})")).value) == Ok(Dict([("a", "b")]))
  {
    var items := [("a", "b")];
    var raw := RenderDict(items);
    assert raw == "dict({'a': 'b'})";
    ParseRenderItems(items);
    DecodeEncode(Dict(items));
  }

  /** `map(lambda (k, v): (k, decode(v)), items)`, failing at the first value that does not
      evaluate. */
  function DecodeItems(items: seq<(string, string)>): (r: Result<seq<(string, Value)>>)
    ensures r.Ok? ==> (|r.value| == |items| &&
              forall i | 0 <= i < |items| :: DecodeValue(items[i].1).Ok? && r.value[i] == (items[i].0, DecodeValue(items[i].1).value))
    ensures r.Ok? <==> forall i | 0 <= i < |items| :: DecodeValue(items[i].1).Ok?
    decreases |items|
  {
    if items == [] then Ok([])
    else match DecodeValue(items[0].1)
      case Err(e) => Err(e)
      case Ok(v) =>
        assert forall i | 1 <= i < |items| :: items[i] == items[1..][i - 1];
        match DecodeItems(items[1..])
        case Err(e) => Err(e)
        case Ok(rest) => Ok([(items[0].0, v)] + rest)
  }

  /** `_decode_credentials(items)` */
  function DecodeCredentials(items: seq<(string, string)>): Result<Credentials>
  {
    match DecodeItems(items)
    case Err(e) => Err(e)
    case Ok(decoded) => Ok(FromDictItems(decoded))
  }

  /** The values of `m` that decode, decoded. */
  function DecodeMap(m: map<string, string>): map<string, Value>
  {
    map k | k in m && DecodeValue(m[k]).Ok? :: DecodeValue(m[k]).value
  }

  lemma DecodeMapUpdate(m: map<string, string>, k: string, raw: string)
    requires DecodeValue(raw).Ok?
    ensures DecodeMap(m[k := raw]) == DecodeMap(m)[k := DecodeValue(raw).value]
  {
  }

  /** The dictionary of decoded items is the decoded dictionary of the items. */
  lemma {:induction false} FromPairsDecoded(items: seq<(string, string)>)
    requires DecodeItems(items).Ok?
    ensures FromPairs(DecodeItems(items).value) == DecodeMap(FromPairs(items))
    decreases |items|
  {
    if items != [] {
      var n := |items| - 1;
      var init := items[..n];
      var d := DecodeItems(items).value;
      DecodedPrefix(items);
      FromPairsDecoded(init);
      DecodeMapUpdate(FromPairs(init), items[n].0, items[n].1);
    }
  }

  lemma DecodedPrefix(items: seq<(string, string)>)
    requires |items| >= 1 && DecodeItems(items).Ok?
    ensures DecodeItems(items[..|items| - 1]).Ok?
    ensures DecodeItems(items[..|items| - 1]).value == DecodeItems(items).value[..|items| - 1]
  {
    var n := |items| - 1;
    var init := items[..n];
    var d := DecodeItems(items).value;
    forall i | 0 <= i < n ensures DecodeValue(init[i].1).Ok? {
      assert init[i] == items[i];
    }
    var di := DecodeItems(init).value;
    forall i | 0 <= i < n ensures di[i] == d[i] {
      assert init[i] == items[i];
    }
    assert di == d[..n];
  }

  /** `get_credentials(name)` on the given sections. */
  function GetCredentialsIn(sections: seq<Section>, name: string): (r: Result<Credentials>)
    ensures !HasSection(sections, SectionName(name)) ==> r == Err(NoSectionError(SectionName(name)))
  {
    match FindSection(sections, SectionName(name))
    case None => Err(NoSectionError(SectionName(name)))
    case Some(i) => DecodeCredentials(sections[i].options)
  }

  /** What `add_credentials` writes into the section: `_class`, then every option. */
  function Encoded(creds: Credentials): map<string, string>
  {
    EncodedSoFar(creds, creds.options.Keys)
  }

  /** The section after `_class` and the options in `done` were set. */
  function EncodedSoFar(creds: Credentials, done: set<string>): map<string, string>
  {
    map["_class" := "credentials"] +
      map k | k in done && k in creds.options && !creds.options[k].Other? :: EncodeValue(creds.options[k]).value
  }

  /** Credentials stored by `add_credentials` are read back by `get_credentials`, tagged
      with `_class`. */
  lemma AddThenGet(sections: seq<Section>, name: string, creds: Credentials, opts: seq<(string, string)>)
    requires !HasSection(sections, SectionName(name))
    requires forall k | k in creds.options :: ReadsBack(creds.options[k])
    requires FromPairs(opts) == Encoded(creds) && DistinctKeys(opts)
    ensures GetCredentialsIn(sections + [Section(SectionName(name), opts)], name) ==
              Ok(Credentials(map["_class" := Str("credentials")] + creds.options))
  {
    GetAppended(sections, name, opts);
    forall i | 0 <= i < |opts| ensures DecodeValue(opts[i].1).Ok? {
      StoredValueDecodes(opts, i, creds);
    }
    FromPairsDecoded(opts);
    DecodedEncoded(creds);
  }

  /** `get_credentials` finds a section appended under a new name. */
  lemma GetAppended(sections: seq<Section>, name: string, opts: seq<(string, string)>)
    requires !HasSection(sections, SectionName(name))
    ensures GetCredentialsIn(sections + [Section(SectionName(name), opts)], name) == DecodeCredentials(opts)
  {
    var all := sections + [Section(SectionName(name), opts)];
    assert forall i | 0 <= i < |sections| :: all[i] == sections[i];
    var idx := FindSection(all, SectionName(name));
    assert all[|sections|].name == SectionName(name);
    assert idx.Some?;
    assert idx.value < |sections| ==> HasSection(sections, SectionName(name));
  }

  /** Decoding what `add_credentials` wrote gives back the options, with `_class`. */
  lemma DecodedEncoded(creds: Credentials)
    requires forall k | k in creds.options :: RoundTrips(creds.options[k])
    ensures DecodeMap(Encoded(creds)) == map["_class" := Str("credentials")] + creds.options
  {
    var want := map["_class" := Str("credentials")] + creds.options;
    var got := DecodeMap(Encoded(creds));
    forall k | k in want ensures k in got && got[k] == want[k] {
      DecodedEncodedAt(creds, k);
    }
    EncodedKeys(creds);
    assert got.Keys <= Encoded(creds).Keys;
    assert want.Keys == {"_class"} + creds.options.Keys;
    assert got.Keys == want.Keys;
  }

  lemma DecodedEncodedAt(creds: Credentials, k: string)
    requires forall k | k in creds.options :: RoundTrips(creds.options[k])
    requires k == "_class" || k in creds.options
    ensures k in DecodeMap(Encoded(creds))
    ensures DecodeMap(Encoded(creds))[k] == (map["_class" := Str("credentials")] + creds.options)[k]
  {
    EncodedKeys(creds);
    if k in creds.options {
      DecodeEncode(creds.options[k]);
      EncodedOption(creds, k);
    } else {
      MarkerDecodes();
    }
  }

  /** Every stored value decodes: it is the text of a value that round-trips, or the
      `_class` marker. */
  lemma StoredValueDecodes(opts: seq<(string, string)>, i: nat, creds: Credentials)
    requires i < |opts| && DistinctKeys(opts)
    requires forall k | k in creds.options :: RoundTrips(creds.options[k])
    requires FromPairs(opts) == Encoded(creds)
    ensures DecodeValue(opts[i].1).Ok?
  {
    var k := opts[i].0;
    LastWins(opts, i);
    assert Encoded(creds)[k] == opts[i].1;
    EncodedKeys(creds);
    if k in creds.options {
      DecodeEncode(creds.options[k]);
      EncodedOption(creds, k);
    } else {
      MarkerDecodes();
    }
  }

  lemma MarkerDecodes()
    ensures DecodeValue("credentials") == Ok(Str("credentials"))
  {
    assert "credentials"[0] == 'c';
  }

  lemma EncodedOption(creds: Credentials, k: string)
    requires k in creds.options && !creds.options[k].Other?
    ensures k in Encoded(creds) && Encoded(creds)[k] == EncodeValue(creds.options[k]).value
  {
  }

  lemma EncodedKeys(creds: Credentials)
    ensures Encoded(creds).Keys <= {"_class"} + creds.options.Keys
    ensures "_class" in Encoded(creds)
    ensures "_class" !in creds.options ==> Encoded(creds)["_class"] == "credentials"
  {
  }

  // ---------------------------------------------------------------- find_credentials

  /** What `creds.options.has_key("tags") and creds.options["tags"] or {}` yields: a
      dictionary, or a value of another type (a string), which has no `has_key`. */
  datatype TagsView = TagMap(tags: map<string, string>) | NotADict

  function CredsTags(creds: Credentials): (t: TagsView)
    ensures "tags" !in creds.options ==> t == TagMap(map[])
  {
    if "tags" !in creds.options then TagMap(map[])
    else match creds.options["tags"]
      case Dict(items) => TagMap(FromPairs(items))
      case Str(s) => if s == "" then TagMap(map[]) else NotADict
      case Other(_) => NotADict
  }

  /** `creds_match`: every filter pair is among the credential's tags. With a non-empty
      filter, tags held as text fail on `has_key`. */
  function CredsMatch(creds: Credentials, filter: map<string, string>): (r: Result<bool>)
    ensures filter == map[] ==> r == Ok(true)
    ensures CredsTags(creds).TagMap? ==>
              r == Ok(forall k | k in filter :: k in CredsTags(creds).tags && CredsTags(creds).tags[k] == filter[k])
    ensures CredsTags(creds).NotADict? && filter != map[] ==> r == Err(AttributeError("has_key"))
  {
    if filter == map[] then Ok(true)
    else match CredsTags(creds)
      case NotADict => Err(AttributeError("has_key"))
      case TagMap(t) => Ok(forall k | k in filter :: k in t && t[k] == filter[k])
  }

  /** What one section contributes to `ret`: nothing unless it is a credentials section
      whose credentials match. */
  function Consider(sec: Section, filter: map<string, string>): Result<Option<Credentials>>
  {
    var opts := FromPairs(sec.options);
    if "_class" !in opts then Err(NoOptionError("_class"))
    else if opts["_class"] != "credentials" then Ok(None)
    else match DecodeCredentials(sec.options)
      case Err(e) => Err(e)
      case Ok(creds) =>
        match CredsMatch(creds, filter)
        case Err(e) => Err(e)
        case Ok(b) => Ok(if b then Some(creds) else None)
  }

  /** What each section contributes, in section order. */
  function Steps(sections: seq<Section>, filter: map<string, string>): (st: seq<Result<Option<Credentials>>>)
    ensures |st| == |sections|
    ensures forall i | 0 <= i < |sections| :: st[i] == Consider(sections[i], filter)
  {
    seq(|sections|, i requires 0 <= i < |sections| => Consider(sections[i], filter))
  }

  /** The collected credentials, failing at the first step that raised. */
  function Collect(steps: seq<Result<Option<Credentials>>>): (r: Result<seq<Credentials>>)
    ensures r.Ok? ==> |r.value| <= |steps|
    decreases |steps|
  {
    if steps == [] then Ok([])
    else match steps[0]
      case Err(e) => Err(e)
      case Ok(c) =>
        match Collect(steps[1..])
        case Err(e) => Err(e)
        case Ok(rest) => Ok((if c.Some? then [c.value] else []) + rest)
  }

  /** The credentials `find_credentials` collects, in section order, failing at the
      first section that raises. */
  function Matching(sections: seq<Section>, filter: map<string, string>): Result<seq<Credentials>>
  {
    Collect(Steps(sections, filter))
  }

  /** A step that contributes credentials. */
  predicate Hit(step: Result<Option<Credentials>>)
  {
    step.Ok? && step.value.Some?
  }

  /** The section is a credentials section whose credentials match the filter. */
  predicate Matches(sec: Section, filter: map<string, string>)
  {
    Hit(Consider(sec, filter))
  }

  /** The three outcomes of `find_credentials` after all sections were read. */
  function Outcome(found: seq<Credentials>): Result<Option<Credentials>>
  {
    if |found| > 1 then Err(NameError("RuntimeException"))
    else if |found| == 0 then Ok(None)
    else Ok(Some(found[0]))
  }

  /** When no step raised, the number of credentials collected counts the hits. */
  lemma {:induction false} CollectCount(steps: seq<Result<Option<Credentials>>>)
    requires Collect(steps).Ok?
    ensures var r := Collect(steps).value;
            && (|r| == 0 <==> forall i | 0 <= i < |steps| :: !Hit(steps[i]))
            && (|r| >= 2 <==> exists i, j | 0 <= i < j < |steps| :: Hit(steps[i]) && Hit(steps[j]))
            && (|r| == 1 ==> exists i | 0 <= i < |steps| :: Hit(steps[i]) && r[0] == steps[i].value.value
                               && forall j | 0 <= j < |steps| && j != i :: !Hit(steps[j]))
    decreases |steps|
  {
    if steps != [] {
      var tl := steps[1..];
      CollectCount(tl);
      assert forall i | 0 < i < |steps| :: steps[i] == tl[i - 1];
      var rt := Collect(tl).value;
      if Hit(steps[0]) {
        if |rt| >= 1 {
          var i :| 0 <= i < |tl| && Hit(tl[i]);
          assert Hit(steps[i + 1]);
        }
      } else {
        if |rt| == 1 {
          var i :| 0 <= i < |tl| && Hit(tl[i]) && rt[0] == tl[i].value.value
                   && forall j | 0 <= j < |tl| && j != i :: !Hit(tl[j]);
          assert steps[i + 1] == tl[i];
        }
        if exists i, j | 0 <= i < j < |steps| :: Hit(steps[i]) && Hit(steps[j]) {
          var i, j :| 0 <= i < j < |steps| && Hit(steps[i]) && Hit(steps[j]);
          assert i > 0;
          assert Hit(tl[i - 1]) && Hit(tl[j - 1]);
        }
      }
    }
  }

  /** `find_credentials`: no match gives None, one match gives its credentials, several
      are an error; sections that are not credentials are never reported. */
  lemma FindCredentialsCases(sections: seq<Section>, filter: map<string, string>)
    requires Matching(sections, filter).Ok?
    ensures var r := Outcome(Matching(sections, filter).value);
            && (r == Ok(None) <==> forall i | 0 <= i < |sections| :: !Matches(sections[i], filter))
            && (r.Err? <==> exists i, j | 0 <= i < j < |sections| :: Matches(sections[i], filter) && Matches(sections[j], filter))
            && (r.Ok? && r.value.Some? ==>
                  exists i | 0 <= i < |sections| :: (Matches(sections[i], filter)
                    && FromPairs(sections[i].options)["_class"] == "credentials"
                    && DecodeCredentials(sections[i].options) == Ok(r.value.value)))
  {
    var st := Steps(sections, filter);
    assert forall i | 0 <= i < |sections| :: Matches(sections[i], filter) == Hit(st[i]);
    CollectCount(st);
    var found := Collect(st).value;
    if |found| == 1 {
      var i :| 0 <= i < |st| && Hit(st[i]) && found[0] == st[i].value.value;
      ConsiderHit(sections[i], filter);
    }
  }

  /** A section that contributes credentials is a credentials section, and contributes
      its decoded credentials. */
  lemma ConsiderHit(sec: Section, filter: map<string, string>)
    requires Matches(sec, filter)
    ensures "_class" in FromPairs(sec.options) && FromPairs(sec.options)["_class"] == "credentials"
    ensures DecodeCredentials(sec.options) == Ok(Consider(sec, filter).value.value)
  {
  }

  /** Credentials without tags match only the empty filter. */
  lemma UntaggedMatchesOnlyEmpty(creds: Credentials, filter: map<string, string>)
    requires "tags" !in creds.options
    ensures CredsMatch(creds, filter) == Ok(filter == map[])
  {
    if filter != map[] {
      var k :| k in filter;
    }
  }

  /** The options `add_credentials` sets in the new section, one `set` per option after
      `_class`, and the error that stops it. On an error the options hold what was set
      before it. */
  method SetOptions(creds: Credentials) returns (opts: seq<(string, string)>, failure: Option<Error>)
    ensures DistinctKeys(opts) && "_class" in FromPairs(opts)
    ensures forall k | k in FromPairs(opts) && k != "_class" ::
              k in creds.options && StoreError(creds.options[k]).None? &&
              FromPairs(opts)[k] == EncodeValue(creds.options[k]).value
    ensures failure.None? <==> forall k | k in creds.options :: StoreError(creds.options[k]).None?
    ensures failure.None? ==> FromPairs(opts) == Encoded(creds)
    ensures failure.Some? ==>
              exists k | k in creds.options :: StoreError(creds.options[k]).Some? && failure == StoreError(creds.options[k])
  {
    opts := [("_class", "credentials")];
    failure := None;
    var todo := creds.options.Keys;
    ghost var done: set<string> := {};
    while todo != {}
      invariant todo + done == creds.options.Keys && todo !! done
      invariant DistinctKeys(opts)
      invariant forall k | k in done :: StoreError(creds.options[k]).None?
      invariant FromPairs(opts) == EncodedSoFar(creds, done)
      invariant failure.None?
      decreases todo
    {
      var k :| k in todo;
      var v := creds.options[k];
      failure := StoreError(v);
      if failure.Some? {
        StoredSoFar(opts, creds, done);
        assert k in creds.options && failure == StoreError(creds.options[k]);
        return;
      }
      opts := Put(opts, k, EncodeValue(v).value);
      StepMap(creds, done, k);
      todo := todo - {k};
      done := done + {k};
    }
    assert done == creds.options.Keys;
    StoredSoFar(opts, creds, done);
  }

  // ---------------------------------------------------------------- the store

  /** `Config`: the parsed configuration file, and what was last written to disk. */
  class Config {
    var sections: seq<Section>
    /** The sections as last saved to the configuration file. */
    var saved: seq<Section>

    ghost predicate Valid()
      reads this
    {
      DistinctSections(sections)
    }

    /** `Config()`, with the sections read from the configuration file. */
    constructor (sections: seq<Section>)
      requires DistinctSections(sections)
      ensures Valid() && this.sections == sections && saved == sections
    {
      this.sections := sections;
      saved := sections;
    }

    /** `add_credentials(name, creds)`: the section is added first, so an option that
        cannot be stored leaves it in place, holding the options set before, and nothing
        is saved. */
    method AddCredentials(name: string, creds: Credentials) returns (r: Result<()>)
      requires Valid()
      modifies this
      ensures Valid()
      ensures HasSection(old(sections), SectionName(name)) ==>
                r == Err(DuplicateSectionError(SectionName(name))) && sections == old(sections) && saved == old(saved)
      ensures !HasSection(old(sections), SectionName(name)) ==>
                |sections| == |old(sections)| + 1 && sections[..|old(sections)|] == old(sections) &&
                sections[|old(sections)|].name == SectionName(name) &&
                DistinctKeys(sections[|old(sections)|].options) &&
                "_class" in FromPairs(sections[|old(sections)|].options) &&
                forall k | k in FromPairs(sections[|old(sections)|].options) && k != "_class" ::
                  k in creds.options && StoreError(creds.options[k]).None? &&
                  FromPairs(sections[|old(sections)|].options)[k] == EncodeValue(creds.options[k]).value
      ensures r.Ok? <==> !HasSection(old(sections), SectionName(name)) && forall k | k in creds.options :: StoreError(creds.options[k]).None?
      ensures r.Ok? ==> FromPairs(sections[|old(sections)|].options) == Encoded(creds) && saved == sections
      ensures r.Err? && !HasSection(old(sections), SectionName(name)) ==>
                saved == old(saved) &&
                exists k | k in creds.options :: StoreError(creds.options[k]).Some? &&
                  r == Err(StoreError(creds.options[k]).value)
    {
      var section := SectionName(name);
      if FindSection(sections, section).Some? {
        return Err(DuplicateSectionError(section));
      }
      var opts, failure := SetOptions(creds);
      AppendKeepsDistinct(sections, section, opts);
      sections := sections + [Section(section, opts)];
      if failure.Some? {
        return Err(failure.value);
      }
      saved := sections;
      r := Ok(());
    }

    /** `get_credentials(name)` */
    function GetCredentials(name: string): (r: Result<Credentials>)
      reads this
      ensures !HasSection(sections, SectionName(name)) ==> r == Err(NoSectionError(SectionName(name)))
    {
      GetCredentialsIn(sections, name)
    }

    /** `find_credentials(**filter)` */
    method FindCredentials(filter: map<string, string>) returns (r: Result<Option<Credentials>>)
      ensures r == (match Matching(sections, filter) case Err(e) => Err(e) case Ok(found) => Outcome(found))
    {
      var ret: seq<Credentials> := [];
      var i := 0;
      ghost var steps := Steps(sections, filter);
      assert steps[0..] == steps;
      PrefixedEmpty(Matching(sections, filter));
      while i < |sections|
        invariant 0 <= i <= |sections|
        invariant Matching(sections, filter) == Prefixed(ret, Collect(steps[i..]))
      {
        var s := sections[i];
        assert steps[i..][0] == Consider(s, filter) && steps[i..][1..] == steps[i + 1..];
        PrefixedStep(ret, steps[i..]);
        var opts := FromPairs(s.options);
        if "_class" !in opts {
          return Err(NoOptionError("_class"));
        }
        if opts["_class"] != "credentials" {
          i := i + 1;
          continue;
        }
        var creds := DecodeCredentials(s.options);
        if creds.Err? {
          return Err(creds.error);
        }
        var m := CredsMatch(creds.value, filter);
        if m.Err? {
          return Err(m.error);
        }
        if m.value {
          ret := ret + [creds.value];
        }
        i := i + 1;
      }
      assert steps[i..] == [];
      if |ret| > 1 {
        return Err(NameError("RuntimeException"));
      }
      if |ret| == 0 {
        return Ok(None);
      }
      return Ok(Some(ret[0]));
    }
  }

  /** `ret` in front of what the remaining sections give. */
  function Prefixed(ret: seq<Credentials>, r: Result<seq<Credentials>>): Result<seq<Credentials>>
  {
    match r
    case Err(e) => Err(e)
    case Ok(rest) => Ok(ret + rest)
  }

  /** One more step: an error ends the collection, credentials join `ret`. */
  lemma PrefixedStep(ret: seq<Credentials>, steps: seq<Result<Option<Credentials>>>)
    requires steps != []
    ensures steps[0].Err? ==> Prefixed(ret, Collect(steps)) == Err(steps[0].error)
    ensures steps[0] == Ok(None) ==> Prefixed(ret, Collect(steps)) == Prefixed(ret, Collect(steps[1..]))
    ensures steps[0].Ok? && steps[0].value.Some? ==>
              Prefixed(ret, Collect(steps)) == Prefixed(ret + [steps[0].value.value], Collect(steps[1..]))
  {
    var rest := Collect(steps[1..]);
    match steps[0]
    case Err(e) =>
    case Ok(None) =>
      if rest.Ok? { assert [] + rest.value == rest.value; }
    case Ok(Some(c)) =>
      if rest.Ok? { assert ret + ([c] + rest.value) == (ret + [c]) + rest.value; }
  }

  lemma PrefixedEmpty(r: Result<seq<Credentials>>)
    ensures Prefixed([], r) == r
  {
    if r.Ok? {
      assert [] + r.value == r.value;
    }
  }

  /** A section appended under a new name keeps the names distinct. */
  lemma AppendKeepsDistinct(sections: seq<Section>, section: string, opts: seq<(string, string)>)
    requires DistinctSections(sections) && !HasSection(sections, section)
    ensures DistinctSections(sections + [Section(section, opts)])
    ensures (sections + [Section(section, opts)])[..|sections|] == sections
  {
    var all := sections + [Section(section, opts)];
    forall i, j | 0 <= i < j < |all| ensures all[i].name != all[j].name {
      assert all[i] == sections[i];
      if j < |sections| { assert all[j] == sections[j]; }
    }
  }

  /** Setting one more option extends the encoded map by that option. */
  lemma StepMap(creds: Credentials, done: set<string>, k: string)
    requires k in creds.options && !creds.options[k].Other?
    ensures EncodedSoFar(creds, done)[k := EncodeValue(creds.options[k]).value] == EncodedSoFar(creds, done + {k})
  {
  }

  /** Options that hold the encoding so far hold `_class` and each value's encoding. */
  lemma StoredSoFar(opts: seq<(string, string)>, creds: Credentials, done: set<string>)
    requires FromPairs(opts) == EncodedSoFar(creds, done)
    requires forall k | k in done && k in creds.options :: StoreError(creds.options[k]).None?
    ensures "_class" in FromPairs(opts)
    ensures forall k | k in FromPairs(opts) && k != "_class" ::
              k in creds.options && StoreError(creds.options[k]).None? &&
              FromPairs(opts)[k] == EncodeValue(creds.options[k]).value
  {
    SoFarAgrees(creds, done);
  }

  /** Every option set so far, `_class` aside, holds the encoding of its value. */
  lemma SoFarAgrees(creds: Credentials, done: set<string>)
    ensures "_class" in EncodedSoFar(creds, done)
    ensures forall k | k in EncodedSoFar(creds, done) && k != "_class" ::
              k in done && k in creds.options && !creds.options[k].Other? &&
              EncodedSoFar(creds, done)[k] == EncodeValue(creds.options[k]).value
  {
  }
}
