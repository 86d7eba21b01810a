/**
 * The parameter grammar shared by the passes (pass/common.hh): a pipeline element
 * is either the bare pass name or `name<key=value;key=value;...>`, checked against
 * an ordered option schema in which an empty default marks a required option.
 */
module PassOptions {
  import opened Wrappers
  import opened Strings

  /** `struct Options`: a name and its value; an empty value means "not set". */
  datatype Opt = Opt(name: string, value: string) {
    predicate IsSet() {
      value != []
    }
  }

  /** The five errors `MatchParamPass` and `ParseOptions` return. */
  datatype ParseError =
    | NameNotMatched
    | MalformedName
    | InvalidOption(item: string)
    | UnknownOption(key: string)
    | MissingRequiredOption(option: string)

  /** The text of the `StringError` for each error. */
  function Message(e: ParseError): string {
    match e
    case NameNotMatched => "name not matched"
    case MalformedName => "malformed parameterized pass name"
    case InvalidOption(item) => "invalid option: " + item
    case UnknownOption(key) => "unknown option: " + key
    case MissingRequiredOption(option) => "missing required option: " + option
  }

  /** The schemas of the three passes. */
  const IRBBLabelPassOptions: seq<Opt> := [Opt("output_csv", "bb_info.csv")]
  const PhaseAnalysisPassOptions: seq<Opt> := [Opt("interval_length", "")]
  const PhaseBoundPassOptions: seq<Opt> := [
    Opt("warmup_marker_bb_id", ""),
    Opt("warmup_marker_count", ""),
    Opt("start_marker_bb_id", ""),
    Opt("start_marker_count", ""),
    Opt("end_marker_bb_id", ""),
    Opt("end_marker_count", "")
  ]

  const IRBBLabelPassName: string := "ir-bb-label-pass"

  predicate SameNames(a: seq<Opt>, b: seq<Opt>) {
    |a| == |b| && forall i :: 0 <= i < |a| ==> a[i].name == b[i].name
  }

  /** Index of the first option called `key`, as the search loop over `ReturnOptions` finds it. */
  function FindName(opts: seq<Opt>, key: string): (r: Option<nat>)
    ensures r.Some? ==> r.value < |opts| && opts[r.value].name == key
    ensures r.Some? ==> forall i :: 0 <= i < r.value ==> opts[i].name != key
    ensures r.None? ==> forall i :: 0 <= i < |opts| ==> opts[i].name != key
  {
    if opts == [] then None
    else if opts[0].name == key then Some(0)
    else match FindName(opts[1..], key)
      case None => None
      case Some(i) => Some(i + 1)
  }

  /**
   * How a pass reads one of its options (`GetOptionValue`, which is not part of
   * this model): the value of the first option so named, the empty string if none.
   */
  function OptionValue(opts: seq<Opt>, name: string): string {
    match FindName(opts, name)
    case Some(i) => opts[i].value
    case None => ""
  }

  lemma {:induction false} FindNameSameNames(a: seq<Opt>, b: seq<Opt>, key: string)
    requires SameNames(a, b)
    ensures FindName(a, key) == FindName(b, key)
  {
    if a != [] && a[0].name != key {
      assert SameNames(a[1..], b[1..]);
      FindNameSameNames(a[1..], b[1..], key);
    }
  }

  /** The items of a parameter body: split on `;`, empty pieces dropped. */
  function Items(params: string): seq<string> {
    SplitNonEmpty(params, ';')
  }

  /** What one item says once trimmed and split at its first `=`. */
  datatype Item = Blank | Malformed(text: string) | Entry(key: string, value: string)

  function Classify(raw: string): Item {
    var t := Trim(raw);
    if t == [] then Blank
    else
      var kv := SplitFirst(t, '=');
      var k, v := Trim(kv.0), Trim(kv.1);
      if k == [] || v == [] then Malformed(t) else Entry(k, v)
  }

  /**
   * A blank item is white space only.  A non-blank item, split at its first `=`,
   * is malformed exactly when its trimmed key or trimmed value is empty, and is
   * reported with its trimmed text; otherwise it is the entry of that trimmed key
   * (free of `=`) and trimmed value.
   */
  lemma ClassifyShape(raw: string)
    ensures Classify(raw).Blank? <==> Trim(raw) == []
    ensures var kv := SplitFirst(Trim(raw), '=');
            Classify(raw).Malformed? <==> Trim(raw) != [] && (Trim(kv.0) == [] || Trim(kv.1) == [])
    ensures Classify(raw).Malformed? ==> Classify(raw).text == Trim(raw)
    ensures var kv := SplitFirst(Trim(raw), '=');
            Classify(raw).Entry? ==> Classify(raw).key == Trim(kv.0) && Classify(raw).value == Trim(kv.1)
    ensures Classify(raw).Entry? ==> Classify(raw).key != [] && Classify(raw).value != [] && '=' !in Classify(raw).key
  {
    var t := Trim(raw);
    TrimShape(raw);
    if t != [] {
      var kv := SplitFirst(t, '=');
      TrimSub(kv.0);
    }
  }

  lemma TrimSub(s: string)
    ensures forall c :: c in Trim(s) ==> c in s
  {
    var t := Trim(s);
    var lo := |s| - |TrimLeft(s)|;
    TrimShape(s);
    forall c | c in t ensures c in s {
      var i :| 0 <= i < |t| && t[i] == c;
      assert s[lo + i] == c;
    }
  }

  /** Every item, classified. */
  function ClassifyAll(raws: seq<string>): (r: seq<Item>)
    ensures |r| == |raws|
  {
    seq(|raws|, i requires 0 <= i < |raws| => Classify(raws[i]))
  }

  /**
   * The loop over the items: each entry overwrites the value of the first schema
   * option of that name; the first malformed item or unknown key stops it.
   */
  function ApplyItems(items: seq<Item>, opts: seq<Opt>): Result<seq<Opt>, ParseError>
  {
    if items == [] then Success(opts)
    else match items[0]
      case Blank => ApplyItems(items[1..], opts)
      case Malformed(t) => Failure(InvalidOption(t))
      case Entry(k, v) =>
        match FindName(opts, k)
        case None => Failure(UnknownOption(k))
        case Some(i) => ApplyItems(items[1..], opts[i := opts[i].(value := v)])
  }

  /** Index of the first option without a value. */
  function FirstUnset(opts: seq<Opt>): (r: Option<nat>)
    ensures r.Some? ==> r.value < |opts| && !opts[r.value].IsSet()
    ensures r.Some? ==> forall i :: 0 <= i < r.value ==> opts[i].IsSet()
    ensures r.None? ==> forall i :: 0 <= i < |opts| ==> opts[i].IsSet()
  {
    if opts == [] then None
    else if !opts[0].IsSet() then Some(0)
    else match FirstUnset(opts[1..])
      case None => None
      case Some(i) => Some(i + 1)
  }

  /** The required-option check: the options unchanged, or the first one left empty. */
  function RequireAll(opts: seq<Opt>): (r: Result<seq<Opt>, ParseError>)
    ensures r.Success? <==> forall i :: 0 <= i < |opts| ==> opts[i].IsSet()
    ensures r.Success? ==> r.value == opts
    ensures r.Failure? ==> exists i :: 0 <= i < |opts| && !opts[i].IsSet()
                                    && (forall j :: 0 <= j < i ==> opts[j].IsSet())
                                    && r.error == MissingRequiredOption(opts[i].name)
  {
    match FirstUnset(opts)
    case None => Success(opts)
    case Some(i) => Failure(MissingRequiredOption(opts[i].name))
  }

  /** What `ParseOptions(params, schema)` returns. */
  function Parsed(params: string, schema: seq<Opt>): Result<seq<Opt>, ParseError> {
    match ApplyItems(ClassifyAll(Items(params)), schema)
    case Failure(e) => Failure(e)
    case Success(opts) => RequireAll(opts)
  }

  /** The search loop over `ReturnOptions`: the first option called `key`. */
  method FindOption(opts: seq<Opt>, key: string) returns (r: Option<nat>)
    ensures r == FindName(opts, key)
  {
    var j := 0;
    while j < |opts| && opts[j].name != key
      invariant 0 <= j <= |opts|
      invariant forall l :: 0 <= l < j ==> opts[l].name != key
    {
      j := j + 1;
    }
    if j == |opts| {
      return None;
    }
    assert FindName(opts, key) == Some(j);
    return Some(j);
  }

  /** The loop over the items: classify each, stop at the first bad one, else overwrite the named option. */
  method ApplyOptionItems(items: seq<string>, targetOptions: seq<Opt>) returns (r: Result<seq<Opt>, ParseError>)
    ensures r == ApplyItems(ClassifyAll(items), targetOptions)
  {
    ghost var cs := ClassifyAll(items);
    var returnOptions := targetOptions;
    var i := 0;
    while i < |items|
      invariant 0 <= i <= |items|
      invariant ApplyItems(cs, targetOptions) == ApplyItems(cs[i..], returnOptions)
    {
      assert cs[i..][1..] == cs[i + 1..];
      var c := Classify(items[i]);
      assert cs[i] == c;
      if c.Blank? {
        i := i + 1;
        continue;
      }
      if c.Malformed? {
        return Failure(InvalidOption(c.text));
      }
      var found := FindOption(returnOptions, c.key);
      if found.None? {
        return Failure(UnknownOption(c.key));
      }
      var j := found.value;
      returnOptions := returnOptions[j := returnOptions[j].(value := c.value)];
      i := i + 1;
    }
    return Success(returnOptions);
  }

  /** The required-option loop: the first option left empty is reported. */
  method CheckRequired(opts: seq<Opt>) returns (r: Result<seq<Opt>, ParseError>)
    ensures r == RequireAll(opts)
  {
    var n := 0;
    while n < |opts|
      invariant 0 <= n <= |opts|
      invariant forall l :: 0 <= l < n ==> opts[l].IsSet()
    {
      if !opts[n].IsSet() {
        assert FirstUnset(opts) == Some(n);
        return Failure(MissingRequiredOption(opts[n].name));
      }
      n := n + 1;
    }
    return Success(opts);
  }

  /** `ParseOptions`: copies the schema, overwrites it item by item, then checks every option is set. */
  method ParseOptions(params: string, targetOptions: seq<Opt>) returns (r: Result<seq<Opt>, ParseError>)
    ensures r == Parsed(params, targetOptions)
  {
    var items := Items(params);
    var applied := ApplyOptionItems(items, targetOptions);
    if applied.Failure? {
      return Failure(applied.error);
    }
    r := CheckRequired(applied.value);
  }

  /** `MatchParamPass(Name, Base, TargetOptions)`. */
  function MatchParamPass(name: string, base: string, targetOptions: seq<Opt>): Result<seq<Opt>, ParseError> {
    if name == base then RequireAll(targetOptions)
    else if !StartsWith(name, base) then Failure(NameNotMatched)
    else if |name| <= |base| + 2 then Failure(MalformedName)
    else if name[|base|] != '<' || name[|name| - 1] != '>' then Failure(MalformedName)
    else Parsed(name[|base| + 1..|name| - 1], targetOptions)
  }

  // ---------------------------------------------------------------------------
  // A closed form of the item loop

  /** The first item that stops the loop, and the error it gives. */
  function FirstItemError(items: seq<Item>, schema: seq<Opt>): Option<ParseError> {
    if items == [] then None
    else match items[0]
      case Blank => FirstItemError(items[1..], schema)
      case Malformed(t) => Some(InvalidOption(t))
      case Entry(k, v) =>
        if FindName(schema, k).None? then Some(UnknownOption(k)) else FirstItemError(items[1..], schema)
  }

  /** The value `key` ends up with: that of the last item naming it, or `default` when none does. */
  function LastValue(items: seq<Item>, key: string, default: string): string {
    if items == [] then default
    else
      var c := items[0];
      LastValue(items[1..], key, if c.Entry? && c.key == key then c.value else default)
  }

  /** The schema with every option's value replaced by the last value given for it. */
  function Assigned(schema: seq<Opt>, items: seq<Item>): (r: seq<Opt>)
    ensures SameNames(r, schema)
  {
    seq(|schema|, i requires 0 <= i < |schema| =>
      if FindName(schema, schema[i].name) == Some(i)
      then schema[i].(value := LastValue(items, schema[i].name, schema[i].value))
      else schema[i])
  }

  lemma {:induction false} FirstItemErrorSameNames(items: seq<Item>, a: seq<Opt>, b: seq<Opt>)
    requires SameNames(a, b)
    ensures FirstItemError(items, a) == FirstItemError(items, b)
  {
    if items != [] {
      FirstItemErrorSameNames(items[1..], a, b);
      var c := items[0];
      if c.Entry? { FindNameSameNames(a, b, c.key); }
    }
  }

  /** The item loop fails at the first bad item; otherwise every option takes its last given value. */
  lemma {:induction false} ApplyItemsClosedForm(items: seq<Item>, opts: seq<Opt>)
    ensures ApplyItems(items, opts) ==
      match FirstItemError(items, opts)
      case Some(e) => Failure(e)
      case None => Success(Assigned(opts, items))
  {
    if items == [] {
      assert Assigned(opts, items) == opts;
    } else {
      match items[0]
      case Blank =>
        ApplyItemsClosedForm(items[1..], opts);
        assert Assigned(opts, items[1..]) == Assigned(opts, items);
      case Malformed(t) =>
      case Entry(k, v) =>
        match FindName(opts, k)
        case None =>
        case Some(x) =>
          var opts' := opts[x := opts[x].(value := v)];
          assert SameNames(opts', opts);
          ApplyItemsClosedForm(items[1..], opts');
          FirstItemErrorSameNames(items[1..], opts', opts);
          AssignedStep(items, opts, x, k, v);
    }
  }

  lemma AssignedStep(items: seq<Item>, opts: seq<Opt>, x: nat, k: string, v: string)
    requires items != [] && items[0] == Entry(k, v)
    requires FindName(opts, k) == Some(x)
    ensures Assigned(opts[x := opts[x].(value := v)], items[1..]) == Assigned(opts, items)
  {
    var opts' := opts[x := opts[x].(value := v)];
    assert SameNames(opts', opts);
    var a', a := Assigned(opts', items[1..]), Assigned(opts, items);
    forall i | 0 <= i < |opts| ensures a'[i] == a[i] {
      var n := opts[i].name;
      assert opts'[i].name == n;
      FindNameSameNames(opts', opts, n);
      if FindName(opts, n) == Some(i) {
        var d := if k == n then v else opts[i].value;
        assert LastValue(items, n, opts[i].value) == LastValue(items[1..], n, d);
        assert opts'[i].value == d;
      } else {
        assert i != x;
      }
    }
    assert |a'| == |a|;
  }

  /**
   * `ParseOptions` in closed form: the first malformed item or unknown key is
   * reported, before any required-option check; otherwise the schema with the last
   * given values is checked for unset options.
   */
  lemma ParsedClosedForm(params: string, schema: seq<Opt>)
    ensures Parsed(params, schema) ==
      match FirstItemError(ClassifyAll(Items(params)), schema)
      case Some(e) => Failure(e)
      case None => RequireAll(Assigned(schema, ClassifyAll(Items(params))))
  {
    ApplyItemsClosedForm(ClassifyAll(Items(params)), schema);
  }

  /** The last item naming a key decides its value. */
  lemma {:induction false} LastMentionWins(items: seq<Item>, key: string, default: string, j: nat)
    requires j < |items| && items[j].Entry? && items[j].key == key
    requires forall l :: j < l < |items| ==> !(items[l].Entry? && items[l].key == key)
    ensures LastValue(items, key, default) == items[j].value
  {
    var c := items[0];
    var d' := if c.Entry? && c.key == key then c.value else default;
    if j == 0 {
      UnmentionedKeepsValue(items[1..], key, d');
    } else {
      LastMentionWins(items[1..], key, d', j - 1);
    }
  }

  /** A key no item names keeps its default. */
  lemma {:induction false} UnmentionedKeepsValue(items: seq<Item>, key: string, default: string)
    requires forall l :: 0 <= l < |items| ==> !(items[l].Entry? && items[l].key == key)
    ensures LastValue(items, key, default) == default
  {
    if items != [] {
      UnmentionedKeepsValue(items[1..], key, default);
    }
  }

  /** A successful parse has exactly the schema's names, in schema order, all of them set. */
  lemma ParsedSuccess(params: string, schema: seq<Opt>)
    requires Parsed(params, schema).Success?
    ensures var r := Parsed(params, schema).value;
            SameNames(r, schema) && forall i :: 0 <= i < |r| ==> r[i].IsSet()
  {
    ParsedClosedForm(params, schema);
  }

  /** `ParseOptions` only ever reports item and required-option errors. */
  lemma ParsedErrors(params: string, schema: seq<Opt>)
    requires Parsed(params, schema).Failure?
    ensures Parsed(params, schema).error.InvalidOption?
         || Parsed(params, schema).error.UnknownOption?
         || Parsed(params, schema).error.MissingRequiredOption?
  {
    ParsedClosedForm(params, schema);
    var fe := FirstItemError(ClassifyAll(Items(params)), schema);
    if fe.Some? { FirstItemErrorKinds(ClassifyAll(Items(params)), schema); }
  }

  lemma {:induction false} FirstItemErrorKinds(items: seq<Item>, schema: seq<Opt>)
    requires FirstItemError(items, schema).Some?
    ensures FirstItemError(items, schema).value.InvalidOption? || FirstItemError(items, schema).value.UnknownOption?
  {
    var c := items[0];
    if c.Blank? || (c.Entry? && FindName(schema, c.key).Some?) {
      FirstItemErrorKinds(items[1..], schema);
    }
  }

  // ---------------------------------------------------------------------------
  // Properties of MatchParamPass

  /** The bare name gives the schema back unchanged, or names the first option without a default. */
  lemma BareName(base: string, schema: seq<Opt>)
    ensures MatchParamPass(base, base, schema) == RequireAll(schema)
    ensures (forall i :: 0 <= i < |schema| ==> schema[i].IsSet()) ==> MatchParamPass(base, base, schema) == Success(schema)
  {
  }

  lemma BareLabelPassAccepted()
    ensures MatchParamPass(IRBBLabelPassName, IRBBLabelPassName, IRBBLabelPassOptions) == Success(IRBBLabelPassOptions)
  {
    assert IRBBLabelPassOptions[0].IsSet();
  }

  lemma BarePhaseBoundRejected(base: string)
    ensures MatchParamPass(base, base, PhaseBoundPassOptions) == Failure(MissingRequiredOption("warmup_marker_bb_id"))
  {
    assert FirstUnset(PhaseBoundPassOptions) == Some(0);
  }

  lemma BarePhaseAnalysisRejected(base: string)
    ensures MatchParamPass(base, base, PhaseAnalysisPassOptions) == Failure(MissingRequiredOption("interval_length"))
  {
    assert FirstUnset(PhaseAnalysisPassOptions) == Some(0);
  }

  /** "name not matched" is returned exactly for names that do not start with the pass name. */
  lemma NameNotMatchedIff(name: string, base: string, schema: seq<Opt>)
    ensures MatchParamPass(name, base, schema) == Failure(NameNotMatched) <==> !StartsWith(name, base)
  {
    if StartsWith(name, base) && name != base && |name| > |base| + 2
       && name[|base|] == '<' && name[|name| - 1] == '>' {
      var p := name[|base| + 1..|name| - 1];
      if Parsed(p, schema).Failure? { ParsedErrors(p, schema); }
    }
  }

  /** A name that starts with the pass name but is not `name<...>` with a non-empty body is malformed, and only such a name. */
  lemma MalformedIff(name: string, base: string, schema: seq<Opt>)
    ensures MatchParamPass(name, base, schema) == Failure(MalformedName) <==>
      StartsWith(name, base) && name != base &&
      (|name| <= |base| + 2 || name[|base|] != '<' || name[|name| - 1] != '>')
  {
    if StartsWith(name, base) && name != base && |name| > |base| + 2
       && name[|base|] == '<' && name[|name| - 1] == '>' {
      var p := name[|base| + 1..|name| - 1];
      if Parsed(p, schema).Failure? { ParsedErrors(p, schema); }
    }
  }

  /** `base<p>` parses exactly the body `p`; `base<>` is malformed. */
  lemma BracketedBody(base: string, p: string, schema: seq<Opt>)
    ensures p != [] ==> MatchParamPass(base + "<" + p + ">", base, schema) == Parsed(p, schema)
    ensures p == [] ==> MatchParamPass(base + "<" + p + ">", base, schema) == Failure(MalformedName)
  {
    var name := base + "<" + p + ">";
    assert name[..|base|] == base;
    assert name[|base|] == '<';
    assert name[|base| + 1..|name| - 1] == p;
  }

  /** Whatever `MatchParamPass` accepts has the schema's names in order, every value non-empty. */
  lemma MatchSuccessAllSet(name: string, base: string, schema: seq<Opt>)
    requires MatchParamPass(name, base, schema).Success?
    ensures var r := MatchParamPass(name, base, schema).value;
            SameNames(r, schema) && forall i :: 0 <= i < |r| ==> r[i].IsSet()
  {
    if name != base {
      ParsedSuccess(name[|base| + 1..|name| - 1], schema);
    }
  }
}
