/** The string argument converter: a schema of required and optional arguments, declared in
    order, and the binding of a command's text parts to it. Casts and default providers are
    foreign callables, given here as abstract partial functions: `apply(f, s)` is the value of
    calling f on s, `call0(f)` that of calling f with no argument, and `None` means the call
    raised. */
module StringArgs {
  import opened Wrappers

  /** A Python value, as far as the converter tells values apart. */
  datatype Value = PyNone | Str(s: string) | Obj(id: nat)

  /** An element of an argument's declaration tuple: a plain value, or a callable taking
      `params` parameters (a type, a cast function, a default provider). */
  datatype Elem = Literal(v: Value) | Callable(fn: nat, params: nat)

  /** The value given for one keyword argument: a tuple or list, or anything else. */
  datatype ArgSpec = Tuple(items: seq<Elem>) | Scalar(e: Elem)

  datatype InitError =
    | BadShape(key: string)   // AssertionError: not a tuple or list of 1 to 3 elements
    | BadArity(key: string)   // AssertionError: a callable 2nd element taking neither 0 nor 1 parameter

  /** How the constructor files one argument. */
  datatype Kind =
    | Required(target: Elem, cast: Option<Elem>)
    | Optional(target: Elem, default: Elem, cast: Option<Elem>)

  /** The constructor's treatment of one keyword argument. */
  function Classify(key: string, spec: ArgSpec): (r: Result<Kind, InitError>)
    ensures r.Ok? <==>
      && spec.Tuple? && 1 <= |spec.items| <= 3
      && !(|spec.items| == 2 && spec.items[1].Callable? && spec.items[1].params > 1)
    ensures r.Ok? ==> r.value.target == spec.items[0]
    ensures r.Ok? ==> (r.value.Required? <==>
      |spec.items| == 1 || (|spec.items| == 2 && spec.items[1].Callable? && spec.items[1].params == 1))
    ensures r.Ok? && r.value.Required? ==>
      r.value.cast == if |spec.items| == 2 then Some(spec.items[1]) else None
    ensures r.Ok? && r.value.Optional? ==>
      && r.value.default == spec.items[1]
      && r.value.cast == if |spec.items| == 3 then Some(spec.items[2]) else None
    ensures r.Err? ==> (r.error == BadShape(key) <==> !(spec.Tuple? && 1 <= |spec.items| <= 3))
  {
    if !(spec.Tuple? && 1 <= |spec.items| <= 3) then Err(BadShape(key))
    else
      var items := spec.items;
      if |items| == 1 then Ok(Required(items[0], None))
      else if |items| == 2 then
        if items[1].Callable? && items[1].params > 1 then Err(BadArity(key))
        else if items[1].Callable? && items[1].params == 1 then Ok(Required(items[0], Some(items[1])))
        else Ok(Optional(items[0], items[1], None))
      else Ok(Optional(items[0], items[1], Some(items[2])))
  }

  /** The converter once constructed; nothing changes it afterwards. */
  datatype Converter = Converter(
    text: Option<string>,
    required: seq<string>,
    optional: seq<string>,
    defaults: map<string, Elem>,
    targetType: map<string, Elem>,
    castFuncs: map<string, Elem>,
    minLen: nat,
    maxLen: nat)

  type Entry = (string, Kind)

  /** The keyword arguments classified in order, or the first one the constructor refuses. */
  function Classified(kwargs: seq<(string, ArgSpec)>): (r: Result<seq<Entry>, InitError>)
    ensures r.Ok? ==> |r.value| == |kwargs|
    ensures r.Ok? ==> forall j :: 0 <= j < |kwargs| ==>
      r.value[j].0 == kwargs[j].0 && Classify(kwargs[j].0, kwargs[j].1) == Ok(r.value[j].1)
    ensures r.Ok? <==> forall j :: 0 <= j < |kwargs| ==> Classify(kwargs[j].0, kwargs[j].1).Ok?
  {
    if kwargs == [] then Ok([])
    else
      var last := kwargs[|kwargs| - 1];
      match Classified(kwargs[..|kwargs| - 1])
      case Err(e) => Err(e)
      case Ok(es) =>
        match Classify(last.0, last.1)
        case Err(e) => Err(e)
        case Ok(k) => Ok(es + [(last.0, k)])
  }

  function Keys(es: seq<Entry>): seq<string> {
    seq(|es|, j requires 0 <= j < |es| => es[j].0)
  }

  /** The names filed as required (`required` true) or as optional, in declared order. */
  function Filed(es: seq<Entry>, required: bool): (r: seq<string>)
    ensures |r| <= |es|
  {
    if es == [] then []
    else
      var last := es[|es| - 1];
      Filed(es[..|es| - 1], required) + if last.1.Required? == required then [last.0] else []
  }

  function TargetMap(es: seq<Entry>): map<string, Elem> {
    if es == [] then map[]
    else var last := es[|es| - 1]; TargetMap(es[..|es| - 1])[last.0 := last.1.target]
  }

  function CastMap(es: seq<Entry>): map<string, Elem> {
    if es == [] then map[]
    else
      var last := es[|es| - 1];
      var m := CastMap(es[..|es| - 1]);
      if last.1.cast.Some? then m[last.0 := last.1.cast.value] else m
  }

  function DefaultMap(es: seq<Entry>): map<string, Elem> {
    if es == [] then map[]
    else
      var last := es[|es| - 1];
      var m := DefaultMap(es[..|es| - 1]);
      if last.1.Optional? then m[last.0 := last.1.default] else m
  }

  /** The converter a sequence of classified arguments describes. */
  function Schema(text: Option<string>, es: seq<Entry>): Converter {
    var req := Filed(es, true);
    Converter(text, req, Filed(es, false), DefaultMap(es), TargetMap(es), CastMap(es), |req|, |es|)
  }

  /** `StringArgConverter.__init__`: the loop over the keyword arguments, in call order. */
  method NewConverter(command: Option<string>, kwargs: seq<(string, ArgSpec)>) returns (r: Result<Converter, InitError>)
    ensures r == match Classified(kwargs)
      case Ok(es) => Ok(Schema(command, es))
      case Err(e) => Err(e)
  {
    var required: seq<string> := [];
    var optional: seq<string> := [];
    var defaults: map<string, Elem> := map[];
    var targetType: map<string, Elem> := map[];
    var castFuncs: map<string, Elem> := map[];
    ghost var es: seq<Entry> := [];
    var i := 0;
    while i < |kwargs|
      invariant 0 <= i <= |kwargs|
      invariant Classified(kwargs[..i]) == Ok(es)
      invariant required == Filed(es, true) && optional == Filed(es, false)
      invariant defaults == DefaultMap(es) && targetType == TargetMap(es) && castFuncs == CastMap(es)
    {
      var key := kwargs[i].0;
      ClassifiedStep(kwargs, i, es);
      match Classify(key, kwargs[i].1)
      case Err(e) =>
        ClassifiedKeepsError(kwargs, i + 1);
        return Err(e);
      case Ok(kind) =>
        FiledStep(es, (key, kind), true);
        FiledStep(es, (key, kind), false);
        SchemaStep(es, (key, kind));
        targetType := targetType[key := kind.target];
        if kind.Required? {
          required := required + [key];
        } else {
          optional := optional + [key];
          defaults := defaults[key := kind.default];
        }
        if kind.cast.Some? {
          castFuncs := castFuncs[key := kind.cast.value];
        }
        es := es + [(key, kind)];
        i := i + 1;
    }
    assert kwargs[..i] == kwargs;
    r := Ok(Converter(command, required, optional, defaults, targetType, castFuncs, |required|, |kwargs|));
  }

  lemma ClassifiedStep(kwargs: seq<(string, ArgSpec)>, i: nat, es: seq<Entry>)
    requires i < |kwargs| && Classified(kwargs[..i]) == Ok(es)
    ensures Classified(kwargs[..i + 1]) == match Classify(kwargs[i].0, kwargs[i].1)
      case Err(e) => Err(e)
      case Ok(k) => Ok(es + [(kwargs[i].0, k)])
  {
    assert kwargs[..i + 1][..i] == kwargs[..i];
  }

  lemma FiledStep(es: seq<Entry>, e: Entry, required: bool)
    ensures Filed(es + [e], required) == Filed(es, required) + if e.1.Required? == required then [e.0] else []
  {
    assert (es + [e])[..|es|] == es;
  }

  lemma SchemaStep(es: seq<Entry>, e: Entry)
    ensures TargetMap(es + [e]) == TargetMap(es)[e.0 := e.1.target]
    ensures CastMap(es + [e]) == if e.1.cast.Some? then CastMap(es)[e.0 := e.1.cast.value] else CastMap(es)
    ensures DefaultMap(es + [e]) == if e.1.Optional? then DefaultMap(es)[e.0 := e.1.default] else DefaultMap(es)
  {
    assert (es + [e])[..|es|] == es;
  }

  /** Once a prefix of the arguments is refused, so is the whole. */
  lemma {:induction false} ClassifiedKeepsError(kwargs: seq<(string, ArgSpec)>, n: nat)
    requires n <= |kwargs| && Classified(kwargs[..n]).Err?
    ensures Classified(kwargs) == Classified(kwargs[..n])
    decreases |kwargs| - n
  {
    if n < |kwargs| {
      assert kwargs[..n + 1][..n] == kwargs[..n];
      ClassifiedKeepsError(kwargs, n + 1);
    } else {
      assert kwargs[..n] == kwargs;
    }
  }

  predicate Distinct(s: seq<string>) {
    forall i, j :: 0 <= i < j < |s| ==> s[i] != s[j]
  }

  /** What holds of every constructed converter: each name is filed once, as required or as
      optional; every name has a target type, every optional a default; `_MIN_LEN` counts the
      required names and `_MAX_LEN` all of them. */
  ghost predicate WellFormed(c: Converter) {
    && Distinct(c.required) && Distinct(c.optional)
    && (forall k :: k in c.required ==> k !in c.optional)
    && (forall k :: k in c.targetType <==> k in c.required || k in c.optional)
    && (forall k :: k in c.defaults <==> k in c.optional)
    && c.minLen == |c.required| && c.maxLen == |c.required| + |c.optional|
  }

  lemma DistinctInit(es: seq<Entry>)
    requires es != [] && Distinct(Keys(es))
    ensures Distinct(Keys(es[..|es| - 1]))
    ensures forall j :: 0 <= j < |es| - 1 ==> es[j].0 != es[|es| - 1].0
  {
    var init := es[..|es| - 1];
    forall a, b | 0 <= a < b < |Keys(init)| ensures Keys(init)[a] != Keys(init)[b] {
      assert Keys(init)[a] == Keys(es)[a] && Keys(init)[b] == Keys(es)[b];
    }
    forall j | 0 <= j < |es| - 1 ensures es[j].0 != es[|es| - 1].0 {
      assert Keys(es)[j] == es[j].0 && Keys(es)[|es| - 1] == es[|es| - 1].0;
    }
  }

  /** Each list holds exactly the names of its kind, once each. */
  lemma {:induction false} FiledFacts(es: seq<Entry>, required: bool)
    requires Distinct(Keys(es))
    ensures Distinct(Filed(es, required))
    ensures forall k :: k in Filed(es, required) ==> k in Keys(es)
    ensures forall j :: 0 <= j < |es| ==> (es[j].0 in Filed(es, required) <==> es[j].1.Required? == required)
  {
    if es != [] {
      var init := es[..|es| - 1];
      var e := es[|es| - 1];
      DistinctInit(es);
      FiledFacts(init, required);
      assert es == init + [e];
      assert Keys(es) == Keys(init) + [e.0];
      FiledStep(init, e, required);
      var f := Filed(init, required);
      assert Filed(es, required) == f + if e.1.Required? == required then [e.0] else [];
      assert e.0 !in f by {
        forall j | 0 <= j < |init| ensures Keys(init)[j] != e.0 {
          assert Keys(es)[j] == Keys(init)[j] && Keys(es)[|init|] == e.0;
        }
      }
      forall j | 0 <= j < |es| ensures es[j].0 in Filed(es, required) <==> es[j].1.Required? == required {
        if j < |init| {
          assert es[j] == init[j];
          assert es[j].0 != e.0;
          assert init[j].0 in f <==> init[j].1.Required? == required;
          assert es[j].0 in Filed(es, required) <==> es[j].0 in f;
        } else {
          assert es[j] == e;
          if e.1.Required? == required {
            assert Filed(es, required)[|f|] == e.0;
          } else {
            assert Filed(es, required) == f;
          }
        }
      }
    }
  }

  /** The target type map has every declared name with its own type, and no other name. */
  lemma {:induction false} TargetFacts(es: seq<Entry>)
    requires Distinct(Keys(es))
    ensures forall k :: k in TargetMap(es) <==> k in Keys(es)
    ensures forall j :: 0 <= j < |es| ==> es[j].0 in TargetMap(es) && TargetMap(es)[es[j].0] == es[j].1.target
  {
    if es != [] {
      var init := es[..|es| - 1];
      var e := es[|es| - 1];
      DistinctInit(es);
      TargetFacts(init);
      assert es == init + [e];
      SchemaStep(init, e);
      assert Keys(es) == Keys(init) + [e.0];
      forall j | 0 <= j < |es| - 1 ensures es[j] == init[j] { }
    }
  }

  /** The default map has every optional name with its own default, and no other name. */
  lemma {:induction false} DefaultFacts(es: seq<Entry>)
    requires Distinct(Keys(es))
    ensures forall k :: k in DefaultMap(es) <==> k in Filed(es, false)
    ensures forall j :: 0 <= j < |es| && es[j].1.Optional? ==>
      es[j].0 in DefaultMap(es) && DefaultMap(es)[es[j].0] == es[j].1.default
  {
    if es != [] {
      var init := es[..|es| - 1];
      var e := es[|es| - 1];
      DistinctInit(es);
      DefaultFacts(init);
      assert es == init + [e];
      SchemaStep(init, e);
      forall j | 0 <= j < |es| - 1 ensures es[j] == init[j] { }
    }
  }

  /** The cast map has the names declared with a cast, each with its own. */
  lemma {:induction false} CastFacts(es: seq<Entry>)
    requires Distinct(Keys(es))
    ensures forall k :: k in CastMap(es) ==> k in Keys(es)
    ensures forall j :: 0 <= j < |es| ==> (es[j].0 in CastMap(es) <==> es[j].1.cast.Some?)
    ensures forall j :: 0 <= j < |es| && es[j].1.cast.Some? ==> CastMap(es)[es[j].0] == es[j].1.cast.value
  {
    if es != [] {
      var init := es[..|es| - 1];
      var e := es[|es| - 1];
      DistinctInit(es);
      CastFacts(init);
      assert es == init + [e];
      assert Keys(es) == Keys(init) + [e.0];
      SchemaStep(init, e);
      forall j | 0 <= j < |es| - 1
        ensures es[j].0 in CastMap(es) <==> es[j].1.cast.Some?
        ensures es[j].1.cast.Some? ==> CastMap(es)[es[j].0] == es[j].1.cast.value
      {
        assert es[j] == init[j] && es[j].0 != e.0;
      }
    }
  }

  /** Every declared name is filed as exactly one of required and optional. */
  lemma {:induction false} FiledPartition(es: seq<Entry>)
    requires Distinct(Keys(es))
    ensures forall k :: k in Filed(es, true) ==> k !in Filed(es, false)
    ensures forall k :: k in Keys(es) <==> k in Filed(es, true) || k in Filed(es, false)
    ensures |Filed(es, true)| + |Filed(es, false)| == |es|
  {
    FiledFacts(es, true);
    FiledFacts(es, false);
    forall k | k in Keys(es) ensures k in Filed(es, true) || k in Filed(es, false) {
      var j :| 0 <= j < |es| && Keys(es)[j] == k;
    }
    forall k | k in Filed(es, true) ensures k !in Filed(es, false) {
      var j :| 0 <= j < |es| && Keys(es)[j] == k;
    }
    FiledLength(es);
  }

  lemma {:induction false} FiledLength(es: seq<Entry>)
    ensures |Filed(es, true)| + |Filed(es, false)| == |es|
  {
    if es != [] {
      var init := es[..|es| - 1];
      FiledLength(init);
      assert es == init + [es[|es| - 1]];
      FiledStep(init, es[|es| - 1], true);
      FiledStep(init, es[|es| - 1], false);
    }
  }

  /** The constructor's classification: a converter from distinct names is well formed, and each
      name lands in the list of its kind with its target type, its default when optional and its
      cast when it has one. */
  lemma SchemaFacts(text: Option<string>, es: seq<Entry>)
    requires Distinct(Keys(es))
    ensures WellFormed(Schema(text, es))
    ensures forall j :: 0 <= j < |es| ==>
      var c := Schema(text, es);
      && (es[j].0 in c.required <==> es[j].1.Required?)
      && (es[j].0 in c.optional <==> es[j].1.Optional?)
      && c.targetType[es[j].0] == es[j].1.target
      && (es[j].1.Optional? ==> c.defaults[es[j].0] == es[j].1.default)
      && (es[j].0 in c.castFuncs <==> es[j].1.cast.Some?)
      && (es[j].1.cast.Some? ==> c.castFuncs[es[j].0] == es[j].1.cast.value)
  {
    FiledFacts(es, true);
    FiledFacts(es, false);
    FiledPartition(es);
    TargetFacts(es);
    DefaultFacts(es);
    CastFacts(es);
  }

  /** The converter the constructor returns, when it returns one: well formed, `_MAX_LEN` the
      number of declared arguments, and a name required exactly when its tuple says so. */
  lemma ConstructedIsWellFormed(command: Option<string>, kwargs: seq<(string, ArgSpec)>)
    requires Distinct(seq(|kwargs|, j requires 0 <= j < |kwargs| => kwargs[j].0))
    requires Classified(kwargs).Ok?
    ensures var c := Schema(command, Classified(kwargs).value);
      && WellFormed(c)
      && c.minLen + |c.optional| == c.maxLen == |kwargs|
      && forall j :: 0 <= j < |kwargs| ==>
        (kwargs[j].0 in c.required <==> Classify(kwargs[j].0, kwargs[j].1).value.Required?)
  {
    var es := Classified(kwargs).value;
    assert Keys(es) == seq(|kwargs|, j requires 0 <= j < |kwargs| => kwargs[j].0);
    SchemaFacts(command, es);
    forall j | 0 <= j < |kwargs|
      ensures kwargs[j].0 in Filed(es, true) <==> Classify(kwargs[j].0, kwargs[j].1).value.Required?
    {
      assert es[j].0 == kwargs[j].0;
    }
  }

  // ---------------------------------------------------------------------------------------
  // Using a converter

  /** `usage`: the usage line, or nothing when no command text was given or it is empty. */
  function Usage(c: Converter): (r: string)
    ensures r == "" <==> c.text.None? || c.text.value == ""
    ensures r != "" ==> |r| == 7 + |c.text.value| && r[..7] == "Usage: " && r[7..] == c.text.value
  {
    if c.text.Some? && c.text.value != "" then "Usage: " + c.text.value else ""
  }

  /** `check_arg_len`: whether the number of parts is one the schema can take; on a well-formed
      converter, at least one per required name and at most one per declared name. */
  function CheckArgLen(c: Converter, args: seq<string>): (ok: bool)
    ensures WellFormed(c) ==> (ok <==> |c.required| <= |args| <= |c.required| + |c.optional|)
  {
    c.minLen <= |args| <= c.maxLen
  }

  /** For a constructed converter the accepted counts run from the number of required arguments to
      the number of all declared arguments. */
  lemma CheckArgLenBounds(command: Option<string>, kwargs: seq<(string, ArgSpec)>, args: seq<string>)
    requires Distinct(seq(|kwargs|, j requires 0 <= j < |kwargs| => kwargs[j].0))
    requires Classified(kwargs).Ok?
    ensures var c := Schema(command, Classified(kwargs).value);
      CheckArgLen(c, args) <==> |c.required| <= |args| <= |c.required| + |c.optional| && |args| <= |kwargs|
  {
    ConstructedIsWellFormed(command, kwargs);
  }

  datatype ParseError =
    | MissingRequired(index: nat)  // IndexError: fewer parts than required arguments
    | CastFailed(key: string)      // whatever the cast raised
    | Malformed(arg: string)       // AttributeError: a part with `=` that is not `name=value`
    | Duplicate(key: string)       // TypeError: a name given a value twice
    | Unknown(key: string)         // TypeError: a name that is not an optional argument
    | PositionalAfterNamed         // SyntaxError: a plain part after a named one
    | DefaultFailed(key: string)   // whatever the default provider raised

  /** `_cast`: the argument's own cast function when it has one that is not None, else its target
      type, applied to the text. */
  function Cast(c: Converter, apply: (Elem, string) -> Option<Value>, value: string, key: string)
    : (r: Result<Value, ParseError>)
    ensures r.Err? ==> r.error == CastFailed(key)
    ensures key in c.castFuncs && c.castFuncs[key] != Literal(PyNone) ==>
      r == if apply(c.castFuncs[key], value).Some? then Ok(apply(c.castFuncs[key], value).value) else Err(CastFailed(key))
    ensures !(key in c.castFuncs && c.castFuncs[key] != Literal(PyNone)) && key in c.targetType ==>
      r == if apply(c.targetType[key], value).Some? then Ok(apply(c.targetType[key], value).value) else Err(CastFailed(key))
    ensures !(key in c.castFuncs && c.castFuncs[key] != Literal(PyNone)) && key !in c.targetType ==> r.Err?
  {
    var f :=
      if key in c.castFuncs && c.castFuncs[key] != Literal(PyNone) then Some(c.castFuncs[key])
      else if key in c.targetType then Some(c.targetType[key])
      else None;
    if f.None? then Err(CastFailed(key))
    else match apply(f.value, value)
      case Some(v) => Ok(v)
      case None => Err(CastFailed(key))
  }

  /** `\w` on ASCII. */
  predicate WordChar(ch: char) {
    ('a' <= ch <= 'z') || ('A' <= ch <= 'Z') || ('0' <= ch <= '9') || ch == '_'
  }

  /** The index of the first ch in s at or after from, or |s|. */
  function IndexOf(s: string, ch: char, from: nat): (r: nat)
    requires from <= |s|
    ensures from <= r <= |s| && (r < |s| ==> s[r] == ch)
    ensures forall i :: from <= i < r ==> s[i] != ch
    decreases |s| - from
  {
    if from == |s| || s[from] == ch then from else IndexOf(s, ch, from + 1)
  }

  /** `re.match(r'(\w+?)=(.+)', arg).group(1, 2)`: the name is the word before the first `=`,
      the value everything after it up to a newline. */
  function SplitNamed(arg: string): (r: Option<(string, string)>)
    ensures r.Some? ==> |r.value.0| + 1 + |r.value.1| <= |arg|
    ensures r.Some? ==>
      var (key, value) := r.value;
      var rest := arg[|key| + 1 + |value|..];
      && key != "" && value != ""
      && (forall i :: 0 <= i < |key| ==> WordChar(key[i]))
      && '\n' !in value
      && arg == key + "=" + value + rest
      && (rest == "" || rest[0] == '\n')
  {
    var p := IndexOf(arg, '=', 0);
    if p == 0 || p + 1 >= |arg| then None
    else if !(forall i :: 0 <= i < p ==> WordChar(arg[i])) then None
    else if arg[p + 1] == '\n' then None
    else
      var q := IndexOf(arg, '\n', p + 1);
      assert arg == arg[..p] + "=" + arg[p + 1..q] + arg[q..];
      Some((arg[..p], arg[p + 1..q]))
  }

  /** Splitting a `name=value` part gives back the name and the value. */
  lemma SplitNamedOfJoin(key: string, value: string)
    requires key != "" && forall i :: 0 <= i < |key| ==> WordChar(key[i])
    requires value != "" && '\n' !in value
    ensures '=' in key + "=" + value
    ensures SplitNamed(key + "=" + value) == Some((key, value))
  {
    var arg := key + "=" + value;
    assert arg[|key|] == '=';
    assert forall i :: 0 <= i < |key| ==> arg[i] == key[i] && key[i] != '=';
    assert IndexOf(arg, '=', 0) == |key| by {
      IndexOfFirst(arg, '=', 0, |key|);
    }
    assert arg[|key| + 1..] == value && arg[|key| + 1..|arg|] == value;
    assert IndexOf(arg, '\n', |key| + 1) == |arg| by {
      forall i | |key| + 1 <= i < |arg| ensures arg[i] != '\n' {
        assert arg[i] == value[i - |key| - 1];
      }
      IndexOfFirst(arg, '\n', |key| + 1, |arg|);
    }
    assert arg[..|key|] == key;
  }

  lemma {:induction false} IndexOfFirst(s: string, ch: char, from: nat, at: nat)
    requires from <= at <= |s| && (at < |s| ==> s[at] == ch)
    requires forall i :: from <= i < at ==> s[i] != ch
    ensures IndexOf(s, ch, from) == at
    decreases at - from
  {
    if from < at {
      IndexOfFirst(s, ch, from + 1, at);
    }
  }

  /** The first loop of `parse_args`: the required arguments from index i on take the parts at
      their own positions, cast. */
  function BindRequired(c: Converter, apply: (Elem, string) -> Option<Value>, args: seq<string>, i: nat,
                        parsed: map<string, Value>): Result<map<string, Value>, ParseError>
    requires i <= |c.required|
    decreases |c.required| - i
  {
    if i == |c.required| then Ok(parsed)
    else if i >= |args| then Err(MissingRequired(i))
    else match Cast(c, apply, args[i], c.required[i])
      case Err(e) => Err(e)
      case Ok(v) => BindRequired(c, apply, args, i + 1, parsed[c.required[i] := v])
  }

  /** The index of the first optional, from index k on, that is still unbound. */
  function FirstUnbound(optional: seq<string>, parsed: map<string, Value>, k: nat): (r: Option<nat>)
    requires k <= |optional|
    ensures r.Some? ==> k <= r.value < |optional| && optional[r.value] !in parsed
    ensures r.Some? ==> forall m :: k <= m < r.value ==> optional[m] in parsed
    ensures r.None? ==> forall m :: k <= m < |optional| ==> optional[m] in parsed
    decreases |optional| - k
  {
    if k == |optional| then None
    else if optional[k] !in parsed then Some(k)
    else FirstUnbound(optional, parsed, k + 1)
  }

  /** The second loop of `parse_args`, from part j on: a named part binds its optional and switches
      to named mode; a plain part before that binds the next unbound optional, or is dropped when
      none is left; a plain part in named mode is an error. */
  function BindTokens(c: Converter, apply: (Elem, string) -> Option<Value>, toks: seq<string>, j: nat,
                      parsed: map<string, Value>, found: bool): Result<map<string, Value>, ParseError>
    requires j <= |toks|
    decreases |toks| - j
  {
    if j == |toks| then Ok(parsed)
    else
      var arg := toks[j];
      if '=' in arg then
        match SplitNamed(arg)
        case None => Err(Malformed(arg))
        case Some((key, value)) =>
          if key in parsed then Err(Duplicate(key))
          else if key !in c.optional then Err(Unknown(key))
          else match Cast(c, apply, value, key)
            case Err(e) => Err(e)
            case Ok(v) => BindTokens(c, apply, toks, j + 1, parsed[key := v], true)
      else if !found then
        match FirstUnbound(c.optional, parsed, 0)
        case None => BindTokens(c, apply, toks, j + 1, parsed, found)
        case Some(k) =>
          match Cast(c, apply, arg, c.optional[k])
          case Err(e) => Err(e)
          case Ok(v) => BindTokens(c, apply, toks, j + 1, parsed[c.optional[k] := v], found)
      else Err(PositionalAfterNamed)
  }

  /** `_default_value`: a callable default is called with no argument, a plain one is the value. */
  function DefaultValue(c: Converter, call0: Elem -> Option<Value>, key: string): (r: Result<Value, ParseError>)
    ensures key !in c.defaults ==> r == Ok(PyNone)
    ensures key in c.defaults && c.defaults[key].Literal? ==> r == Ok(c.defaults[key].v)
    ensures key in c.defaults && c.defaults[key].Callable? ==>
      r == if call0(c.defaults[key]).Some? then Ok(call0(c.defaults[key]).value) else Err(DefaultFailed(key))
  {
    if key !in c.defaults then Ok(PyNone)
    else match c.defaults[key]
      case Literal(v) => Ok(v)
      case Callable(_, _) =>
        match call0(c.defaults[key])
        case Some(v) => Ok(v)
        case None => Err(DefaultFailed(key))
  }

  /** The third loop of `parse_args`, from optional k on: an unbound optional takes its default.
      As written (`lazy` false) the default is worked out for every optional, bound or not; with
      `lazy` only for the unbound ones. */
  function FillDefaults(c: Converter, call0: Elem -> Option<Value>, k: nat, parsed: map<string, Value>, lazy: bool)
    : Result<map<string, Value>, ParseError>
    requires k <= |c.optional|
    decreases |c.optional| - k
  {
    if k == |c.optional| then Ok(parsed)
    else
      var key := c.optional[k];
      if lazy && key in parsed then FillDefaults(c, call0, k + 1, parsed, lazy)
      else match DefaultValue(c, call0, key)
        case Err(e) => Err(e)
        case Ok(d) => FillDefaults(c, call0, k + 1, if key in parsed then parsed else parsed[key := d], lazy)
  }

  /** The returned list: the bound value of every required, then every optional, name. */
  function Collect(c: Converter, parsed: map<string, Value>): (r: seq<Value>)
    ensures |r| == |c.required| + |c.optional|
  {
    var names := c.required + c.optional;
    seq(|names|, i requires 0 <= i < |names| => if names[i] in parsed then parsed[names[i]] else PyNone)
  }

  /** The parts after the required ones. */
  function Rest(c: Converter, args: seq<string>): seq<string> {
    if |c.required| <= |args| then args[|c.required|..] else []
  }

  /** `parse_args`, as a function of the parts (`lazy` false) or with defaults worked out only
      when needed (`lazy` true). A success has one value per declared name and needs a part that
      casts for every required name. */
  function Parse(c: Converter, apply: (Elem, string) -> Option<Value>, call0: Elem -> Option<Value>,
                 args: seq<string>, lazy: bool): (r: Result<seq<Value>, ParseError>)
    ensures r.Ok? ==> |r.value| == |c.required| + |c.optional|
    ensures r.Ok? ==> PartsCast(c, apply, args, 0)
  {
    BindRequiredOk(c, apply, args, 0, map[]);
    match BindRequired(c, apply, args, 0, map[])
    case Err(e) => Err(e)
    case Ok(p1) =>
      match BindTokens(c, apply, Rest(c, args), 0, p1, false)
      case Err(e) => Err(e)
      case Ok(p2) =>
        match FillDefaults(c, call0, 0, p2, lazy)
        case Err(e) => Err(e)
        case Ok(p3) => Ok(Collect(c, p3))
  }

  /** `parse_args`, as the library runs it: three loops over a dictionary filled in place. */
  method ParseArgs(c: Converter, apply: (Elem, string) -> Option<Value>, call0: Elem -> Option<Value>,
                   actualArgs: seq<string>) returns (r: Result<seq<Value>, ParseError>)
    ensures r == Parse(c, apply, call0, actualArgs, false)
  {
    var p1 := BindRequiredArgs(c, apply, actualArgs);
    if p1.Err? {
      return Err(p1.error);
    }
    var p2 := BindOptionalArgs(c, apply, actualArgs[|c.required|..], p1.value);
    assert actualArgs[|c.required|..] == Rest(c, actualArgs);
    if p2.Err? {
      return Err(p2.error);
    }
    var p3 := FillDefaultArgs(c, call0, p2.value);
    if p3.Err? {
      return Err(p3.error);
    }
    return Ok(Collect(c, p3.value));
  }

  /** The first loop of `parse_args`: each required argument takes the part at its position. */
  method BindRequiredArgs(c: Converter, apply: (Elem, string) -> Option<Value>, actualArgs: seq<string>)
    returns (r: Result<map<string, Value>, ParseError>)
    ensures r == BindRequired(c, apply, actualArgs, 0, map[])
    ensures r.Ok? ==> |c.required| <= |actualArgs|
  {
    var parsed: map<string, Value> := map[];
    var i := 0;
    while i < |c.required|
      invariant 0 <= i <= |c.required| && i <= |actualArgs|
      invariant BindRequired(c, apply, actualArgs, 0, map[]) == BindRequired(c, apply, actualArgs, i, parsed)
    {
      if i >= |actualArgs| {
        return Err(MissingRequired(i));
      }
      var v := Cast(c, apply, actualArgs[i], c.required[i]);
      if v.Err? {
        return Err(v.error);
      }
      parsed := parsed[c.required[i] := v.value];
      i := i + 1;
    }
    return Ok(parsed);
  }

  /** The second loop of `parse_args`, over the parts after the required ones, with its
      named-mode flag and the inner search for the next unbound optional. */
  method BindOptionalArgs(c: Converter, apply: (Elem, string) -> Option<Value>, toks: seq<string>,
                          p1: map<string, Value>) returns (r: Result<map<string, Value>, ParseError>)
    ensures r == BindTokens(c, apply, toks, 0, p1, false)
  {
    var parsed := p1;
    var found := false;
    var j := 0;
    while j < |toks|
      invariant 0 <= j <= |toks|
      invariant BindTokens(c, apply, toks, 0, p1, false) == BindTokens(c, apply, toks, j, parsed, found)
    {
      var arg := toks[j];
      if '=' in arg {
        var m := SplitNamed(arg);
        if m.None? {
          return Err(Malformed(arg));
        }
        var key := m.value.0;
        if key in parsed {
          return Err(Duplicate(key));
        }
        if key !in c.optional {
          return Err(Unknown(key));
        }
        var v := Cast(c, apply, m.value.1, key);
        if v.Err? {
          return Err(v.error);
        }
        parsed := parsed[key := v.value];
        found := true;
      } else if !found {
        ghost var before := parsed;
        var k := 0;
        while k < |c.optional|
          invariant 0 <= k <= |c.optional| && parsed == before
          invariant FirstUnbound(c.optional, before, 0) == FirstUnbound(c.optional, before, k)
        {
          var key := c.optional[k];
          if key !in parsed {
            var v := Cast(c, apply, arg, key);
            if v.Err? {
              return Err(v.error);
            }
            parsed := parsed[key := v.value];
            assert BindTokens(c, apply, toks, j, before, found) == BindTokens(c, apply, toks, j + 1, parsed, found);
            break;
          }
          k := k + 1;
        }
        assert BindTokens(c, apply, toks, j, before, found) == BindTokens(c, apply, toks, j + 1, parsed, found);
      } else {
        return Err(PositionalAfterNamed);
      }
      j := j + 1;
    }
    return Ok(parsed);
  }

  /** The third loop of `parse_args`: every optional's default is worked out, and an unbound one
      takes it. */
  method FillDefaultArgs(c: Converter, call0: Elem -> Option<Value>, p2: map<string, Value>)
    returns (r: Result<map<string, Value>, ParseError>)
    ensures r == FillDefaults(c, call0, 0, p2, false)
  {
    var parsed := p2;
    var k := 0;
    while k < |c.optional|
      invariant 0 <= k <= |c.optional|
      invariant FillDefaults(c, call0, 0, p2, false) == FillDefaults(c, call0, k, parsed, false)
    {
      var key := c.optional[k];
      var d := DefaultValue(c, call0, key);
      if d.Err? {
        return Err(d.error);
      }
      if key !in parsed {
        parsed := parsed[key := d.value];
      }
      k := k + 1;
    }
    return Ok(parsed);
  }

  // ---------------------------------------------------------------------------------------
  // What parsing promises

  /** Every required argument from index i on has a part at its position, and that part casts. */
  predicate PartsCast(c: Converter, apply: (Elem, string) -> Option<Value>, args: seq<string>, i: nat) {
    && (i < |c.required| ==> |c.required| <= |args|)
    && forall m :: i <= m < |c.required| ==> Cast(c, apply, args[m], c.required[m]).Ok?
  }

  /** The first loop succeeds exactly when every required argument has a part that casts. */
  lemma {:induction false} BindRequiredOk(c: Converter, apply: (Elem, string) -> Option<Value>, args: seq<string>,
                                          i: nat, p: map<string, Value>)
    requires i <= |c.required|
    ensures BindRequired(c, apply, args, i, p).Ok? <==> PartsCast(c, apply, args, i)
    decreases |c.required| - i
  {
    if i < |c.required| {
      if i < |args| && Cast(c, apply, args[i], c.required[i]).Ok? {
        var p' := p[c.required[i] := Cast(c, apply, args[i], c.required[i]).value];
        BindRequiredOk(c, apply, args, i + 1, p');
      }
    }
  }

  /** The required arguments take the parts at their own positions, cast, in declared order;
      nothing else bound earlier changes and nothing else is bound. */
  lemma {:induction false} BindRequiredValues(c: Converter, apply: (Elem, string) -> Option<Value>, args: seq<string>,
                                              i: nat, p: map<string, Value>)
    requires i <= |c.required| && Distinct(c.required)
    requires PartsCast(c, apply, args, i)
    ensures BindRequired(c, apply, args, i, p).Ok?
    ensures var q := BindRequired(c, apply, args, i, p).value;
      && (forall m :: i <= m < |c.required| ==> c.required[m] in q && q[c.required[m]] == Cast(c, apply, args[m], c.required[m]).value)
      && (forall k :: k in p && k !in c.required[i..] ==> k in q && q[k] == p[k])
      && (forall k :: k in q ==> k in p || k in c.required)
    decreases |c.required| - i
  {
    if i < |c.required| {
      var key := c.required[i];
      var p' := p[key := Cast(c, apply, args[i], key).value];
      BindRequiredValues(c, apply, args, i + 1, p');
      assert BindRequired(c, apply, args, i, p) == BindRequired(c, apply, args, i + 1, p');
      RequiredValuesStep(c, apply, args, i, p, BindRequired(c, apply, args, i + 1, p').value);
    }
  }

  /** The facts of `BindRequiredValues` from i + 1 on, for the dictionary with argument i bound,
      give them from i on. */
  lemma RequiredValuesStep(c: Converter, apply: (Elem, string) -> Option<Value>, args: seq<string>,
                           i: nat, p: map<string, Value>, q: map<string, Value>)
    requires i < |c.required| && Distinct(c.required) && PartsCast(c, apply, args, i)
    requires var p' := p[c.required[i] := Cast(c, apply, args[i], c.required[i]).value];
      && (forall m :: i + 1 <= m < |c.required| ==> c.required[m] in q && q[c.required[m]] == Cast(c, apply, args[m], c.required[m]).value)
      && (forall k :: k in p' && k !in c.required[i + 1..] ==> k in q && q[k] == p'[k])
      && (forall k :: k in q ==> k in p' || k in c.required)
    ensures forall m :: i <= m < |c.required| ==> c.required[m] in q && q[c.required[m]] == Cast(c, apply, args[m], c.required[m]).value
    ensures forall k :: k in p && k !in c.required[i..] ==> k in q && q[k] == p[k]
    ensures forall k :: k in q ==> k in p || k in c.required
  {
    var key := c.required[i];
    var v := Cast(c, apply, args[i], key).value;
    var p' := p[key := v];
    assert key !in c.required[i + 1..] by {
      forall m | i < m < |c.required| ensures c.required[m] != key { }
    }
    assert c.required[i..] == [key] + c.required[i + 1..];
    assert key in q && q[key] == v;
    forall k | k in p && k !in c.required[i..] ensures k in q && q[k] == p[k] {
      assert k != key && k !in c.required[i + 1..];
    }
  }

  /** Fewer parts than required arguments fail at the index of the first missing one, once the
      parts present all cast. */
  lemma TooFewParts(c: Converter, apply: (Elem, string) -> Option<Value>, call0: Elem -> Option<Value>,
                    args: seq<string>, lazy: bool)
    requires |args| < |c.required|
    requires forall m :: 0 <= m < |args| ==> Cast(c, apply, args[m], c.required[m]).Ok?
    ensures Parse(c, apply, call0, args, lazy) == Err(MissingRequired(|args|))
  {
    TooFewFrom(c, apply, args, 0, map[]);
  }

  lemma {:induction false} TooFewFrom(c: Converter, apply: (Elem, string) -> Option<Value>, args: seq<string>,
                                      i: nat, p: map<string, Value>)
    requires i <= |args| < |c.required|
    requires forall m :: i <= m < |args| ==> Cast(c, apply, args[m], c.required[m]).Ok?
    ensures BindRequired(c, apply, args, i, p) == Err(MissingRequired(|args|))
    decreases |args| - i
  {
    if i < |args| {
      TooFewFrom(c, apply, args, i + 1, p[c.required[i] := Cast(c, apply, args[i], c.required[i]).value]);
    }
  }

  /** The second loop never changes a value bound before it and binds nothing but optionals. */
  lemma {:induction false} BindTokensKeeps(c: Converter, apply: (Elem, string) -> Option<Value>, toks: seq<string>,
                                           j: nat, p: map<string, Value>, found: bool)
    requires j <= |toks|
    requires BindTokens(c, apply, toks, j, p, found).Ok?
    ensures var q := BindTokens(c, apply, toks, j, p, found).value;
      && (forall k :: k in p ==> k in q && q[k] == p[k])
      && (forall k :: k in q ==> k in p || k in c.optional)
    decreases |toks| - j
  {
    if j < |toks| {
      var arg := toks[j];
      if '=' in arg {
        var key := SplitNamed(arg).value.0;
        BindTokensKeeps(c, apply, toks, j + 1, p[key := Cast(c, apply, SplitNamed(arg).value.1, key).value], true);
      } else if FirstUnbound(c.optional, p, 0).Some? {
        var key := c.optional[FirstUnbound(c.optional, p, 0).value];
        BindTokensKeeps(c, apply, toks, j + 1, p[key := Cast(c, apply, arg, key).value], found);
      } else {
        BindTokensKeeps(c, apply, toks, j + 1, p, found);
      }
    }
  }

  /** The third loop keeps every bound value and gives each unbound optional its default. As
      written it fails when any optional's default provider fails; with `lazy`, only when an
      unbound one's does. */
  lemma {:induction false} FillDefaultsFacts(c: Converter, call0: Elem -> Option<Value>, k: nat,
                                             p: map<string, Value>, lazy: bool)
    requires k <= |c.optional| && Distinct(c.optional)
    ensures FillDefaults(c, call0, k, p, lazy).Ok? <==>
      forall m :: k <= m < |c.optional| && (!lazy || c.optional[m] !in p) ==> DefaultValue(c, call0, c.optional[m]).Ok?
    ensures FillDefaults(c, call0, k, p, lazy).Ok? ==>
      var q := FillDefaults(c, call0, k, p, lazy).value;
      && (forall x :: x in p ==> x in q && q[x] == p[x])
      && (forall m :: k <= m < |c.optional| && c.optional[m] !in p ==>
            c.optional[m] in q && q[c.optional[m]] == DefaultValue(c, call0, c.optional[m]).value)
      && (forall x :: x in q ==> x in p || x in c.optional)
    decreases |c.optional| - k
  {
    if k < |c.optional| {
      var key := c.optional[k];
      assert forall m :: k < m < |c.optional| ==> c.optional[m] != key;
      if lazy && key in p {
        FillDefaultsFacts(c, call0, k + 1, p, lazy);
      } else if DefaultValue(c, call0, key).Ok? {
        var p' := if key in p then p else p[key := DefaultValue(c, call0, key).value];
        FillDefaultsFacts(c, call0, k + 1, p', lazy);
        assert forall m :: k < m < |c.optional| ==> (c.optional[m] in p' <==> c.optional[m] in p);
      }
    }
  }

  /** Each value text casts for the name at the same position, as far as both lists go. */
  predicate CastsPairwise(c: Converter, apply: (Elem, string) -> Option<Value>, vals: seq<string>, keys: seq<string>) {
    forall x :: 0 <= x < |vals| && x < |keys| ==> Cast(c, apply, vals[x], keys[x]).Ok?
  }

  /** Each name is bound to its value text, cast, as far as both lists go. */
  predicate BoundPairwise(c: Converter, apply: (Elem, string) -> Option<Value>, vals: seq<string>, keys: seq<string>,
                          q: map<string, Value>) {
    forall x :: 0 <= x < |vals| && x < |keys| ==> keys[x] in q && Cast(c, apply, vals[x], keys[x]) == Ok(q[keys[x]])
  }

  lemma PairwiseCons(c: Converter, apply: (Elem, string) -> Option<Value>, vals: seq<string>, keys: seq<string>,
                     q: map<string, Value>)
    requires vals != [] && keys != []
    ensures CastsPairwise(c, apply, vals, keys) <==>
      Cast(c, apply, vals[0], keys[0]).Ok? && CastsPairwise(c, apply, vals[1..], keys[1..])
    ensures keys[0] in q && Cast(c, apply, vals[0], keys[0]) == Ok(q[keys[0]]) && BoundPairwise(c, apply, vals[1..], keys[1..], q)
      ==> BoundPairwise(c, apply, vals, keys, q)
  {
    if CastsPairwise(c, apply, vals[1..], keys[1..]) {
      forall x | 1 <= x < |vals| && x < |keys| ensures Cast(c, apply, vals[x], keys[x]).Ok? {
        assert vals[x] == vals[1..][x - 1] && keys[x] == keys[1..][x - 1];
      }
    }
    if CastsPairwise(c, apply, vals, keys) {
      forall y | 0 <= y < |vals| - 1 && y < |keys| - 1 ensures Cast(c, apply, vals[1..][y], keys[1..][y]).Ok? {
        assert vals[1..][y] == vals[y + 1] && keys[1..][y] == keys[y + 1];
      }
    }
    if BoundPairwise(c, apply, vals[1..], keys[1..], q) {
      forall x | 1 <= x < |vals| && x < |keys| ensures keys[x] in q && Cast(c, apply, vals[x], keys[x]) == Ok(q[keys[x]]) {
        assert vals[x] == vals[1..][x - 1] && keys[x] == keys[1..][x - 1];
      }
    }
  }

  lemma FirstUnboundIs(optional: seq<string>, parsed: map<string, Value>, m: nat)
    requires m < |optional| && optional[m] !in parsed
    requires forall x :: 0 <= x < m ==> optional[x] in parsed
    ensures FirstUnbound(optional, parsed, 0) == Some(m)
  {
    var r := FirstUnbound(optional, parsed, 0);
    assert r.Some? ==> r.value <= m;
    assert r.Some? ==> r.value >= m;
  }

  /** Plain parts before any named one fill the unbound optionals in declared order, one part
      each, starting at optional m; once every optional is bound the remaining parts are dropped. */
  lemma {:induction false} BareTokensFill(c: Converter, apply: (Elem, string) -> Option<Value>, toks: seq<string>,
                                          j: nat, p: map<string, Value>, m: nat)
    requires Distinct(c.optional)
    requires j <= |toks| && m <= |c.optional|
    requires forall x :: j <= x < |toks| ==> '=' !in toks[x]
    requires forall x :: 0 <= x < m ==> c.optional[x] in p
    requires forall x :: m <= x < |c.optional| ==> c.optional[x] !in p
    ensures BindTokens(c, apply, toks, j, p, false).Ok? <==> CastsPairwise(c, apply, toks[j..], c.optional[m..])
    ensures BindTokens(c, apply, toks, j, p, false).Ok? ==>
      var q := BindTokens(c, apply, toks, j, p, false).value;
      && BoundPairwise(c, apply, toks[j..], c.optional[m..], q)
      && (forall x :: m + (|toks| - j) <= x < |c.optional| ==> c.optional[x] !in q)
      && (forall k :: k in p ==> k in q && q[k] == p[k])
    decreases |toks| - j
  {
    if j < |toks| {
      assert toks[j..][0] == toks[j] && toks[j..][1..] == toks[j + 1..];
      if m == |c.optional| {
        assert FirstUnbound(c.optional, p, 0).None?;
        BareTokensFill(c, apply, toks, j + 1, p, m);
      } else {
        var key := c.optional[m];
        assert c.optional[m..][0] == key && c.optional[m..][1..] == c.optional[m + 1..];
        FirstUnboundIs(c.optional, p, m);
        var r := Cast(c, apply, toks[j], key);
        if r.Ok? {
          var p' := p[key := r.value];
          forall x | m < x < |c.optional| ensures c.optional[x] !in p' {
            assert c.optional[x] != key;
          }
          BareTokensFill(c, apply, toks, j + 1, p', m + 1);
          assert BindTokens(c, apply, toks, j, p, false) == BindTokens(c, apply, toks, j + 1, p', false);
          if BindTokens(c, apply, toks, j + 1, p', false).Ok? {
            var q := BindTokens(c, apply, toks, j + 1, p', false).value;
            PairwiseCons(c, apply, toks[j..], c.optional[m..], q);
          }
        }
        PairwiseCons(c, apply, toks[j..], c.optional[m..], map[]);
      }
    }
  }

  /** The first loop, on a well-formed converter whose required parts all cast: each required
      name is bound to its own part, and no optional is bound yet. */
  lemma RequiredPhase(c: Converter, apply: (Elem, string) -> Option<Value>, args: seq<string>)
    requires WellFormed(c) && PartsCast(c, apply, args, 0)
    ensures BindRequired(c, apply, args, 0, map[]).Ok?
    ensures var p1 := BindRequired(c, apply, args, 0, map[]).value;
      && |c.required| <= |args|
      && (forall i :: 0 <= i < |c.required| ==> c.required[i] in p1 && Cast(c, apply, args[i], c.required[i]) == Ok(p1[c.required[i]]))
      && (forall x :: 0 <= x < |c.optional| ==> c.optional[x] !in p1)
      && (forall k :: k in p1 ==> k in c.required)
  {
    BindRequiredValues(c, apply, args, 0, map[]);
    var p1 := BindRequired(c, apply, args, 0, map[]).value;
    forall x | 0 <= x < |c.optional| ensures c.optional[x] !in p1 {
      assert c.optional[x] !in c.required;
    }
  }

  /** The dictionary `parse_args` fills when no part after the required ones is named: required
      names hold their own part, optionals the following parts in order, the rest their defaults. */
  lemma PositionalBind(c: Converter, apply: (Elem, string) -> Option<Value>, call0: Elem -> Option<Value>,
                       args: seq<string>, lazy: bool)
    requires WellFormed(c) && |c.required| <= |args|
    requires forall x :: |c.required| <= x < |args| ==> '=' !in args[x]
    requires Parse(c, apply, call0, args, lazy).Ok?
    ensures BindRequired(c, apply, args, 0, map[]).Ok?
    ensures BindTokens(c, apply, Rest(c, args), 0, BindRequired(c, apply, args, 0, map[]).value, false).Ok?
    ensures var p2 := BindTokens(c, apply, Rest(c, args), 0, BindRequired(c, apply, args, 0, map[]).value, false).value;
      FillDefaults(c, call0, 0, p2, lazy).Ok? &&
      var q := FillDefaults(c, call0, 0, p2, lazy).value;
      var rest := args[|c.required|..];
      && Parse(c, apply, call0, args, lazy) == Ok(Collect(c, q))
      && (forall i :: 0 <= i < |c.required| ==> c.required[i] in q && Cast(c, apply, args[i], c.required[i]) == Ok(q[c.required[i]]))
      && BoundPairwise(c, apply, rest, c.optional, q)
      && (forall x :: |rest| <= x < |c.optional| ==> c.optional[x] in q && DefaultValue(c, call0, c.optional[x]) == Ok(q[c.optional[x]]))
  {
    BindRequiredOk(c, apply, args, 0, map[]);
    RequiredPhase(c, apply, args);
    var p1 := BindRequired(c, apply, args, 0, map[]).value;
    var rest := args[|c.required|..];
    assert Rest(c, args) == rest && rest[0..] == rest && c.optional[0..] == c.optional;
    BareTokensFill(c, apply, rest, 0, p1, 0);
    var p2 := BindTokens(c, apply, rest, 0, p1, false).value;
    FillDefaultsFacts(c, call0, 0, p2, lazy);
    var q := FillDefaults(c, call0, 0, p2, lazy).value;
    assert Parse(c, apply, call0, args, lazy) == Ok(Collect(c, q));
    RequiredKept(c, apply, args, p1, p2, q);
    BoundPairwiseGrows(c, apply, rest, c.optional, p2, q);
    DefaultsFilled(c, call0, |rest|, p2, q, lazy);
  }

  lemma RequiredKept(c: Converter, apply: (Elem, string) -> Option<Value>, args: seq<string>,
                     p1: map<string, Value>, p2: map<string, Value>, q: map<string, Value>)
    requires |c.required| <= |args|
    requires forall i :: 0 <= i < |c.required| ==> c.required[i] in p1 && Cast(c, apply, args[i], c.required[i]) == Ok(p1[c.required[i]])
    requires forall k :: k in p1 ==> k in p2 && p2[k] == p1[k]
    requires forall k :: k in p2 ==> k in q && q[k] == p2[k]
    ensures forall i :: 0 <= i < |c.required| ==> c.required[i] in q && Cast(c, apply, args[i], c.required[i]) == Ok(q[c.required[i]])
  {
  }

  lemma BoundPairwiseGrows(c: Converter, apply: (Elem, string) -> Option<Value>, vals: seq<string>, keys: seq<string>,
                           p: map<string, Value>, q: map<string, Value>)
    requires BoundPairwise(c, apply, vals, keys, p)
    requires forall k :: k in p ==> k in q && q[k] == p[k]
    ensures BoundPairwise(c, apply, vals, keys, q)
  {
  }

  /** The optionals from index `from` on that nothing bound take their defaults. */
  lemma DefaultsFilled(c: Converter, call0: Elem -> Option<Value>, from: nat,
                       p2: map<string, Value>, q: map<string, Value>, lazy: bool)
    requires forall x :: from <= x < |c.optional| ==> c.optional[x] !in p2
    requires forall m :: 0 <= m < |c.optional| && (!lazy || c.optional[m] !in p2) ==> DefaultValue(c, call0, c.optional[m]).Ok?
    requires forall m :: 0 <= m < |c.optional| && c.optional[m] !in p2 ==>
      c.optional[m] in q && q[c.optional[m]] == DefaultValue(c, call0, c.optional[m]).value
    ensures forall x :: from <= x < |c.optional| ==> c.optional[x] in q && DefaultValue(c, call0, c.optional[x]) == Ok(q[c.optional[x]])
  {
  }

  /** The returned list holds the bound value of each required, then each optional, name. */
  lemma CollectAt(c: Converter, q: map<string, Value>)
    ensures forall i :: 0 <= i < |c.required| && c.required[i] in q ==> Collect(c, q)[i] == q[c.required[i]]
    ensures forall x :: 0 <= x < |c.optional| && c.optional[x] in q ==> Collect(c, q)[|c.required| + x] == q[c.optional[x]]
  {
    var names := c.required + c.optional;
    assert forall i :: 0 <= i < |c.required| ==> names[i] == c.required[i];
    assert forall x :: 0 <= x < |c.optional| ==> names[|c.required| + x] == c.optional[x];
  }

  /** The list `parse_args` returns when no part after the required ones is named: the required
      arguments' own parts, the optionals' following parts in order, the rest's defaults. */
  lemma PositionalParts(c: Converter, apply: (Elem, string) -> Option<Value>, call0: Elem -> Option<Value>,
                        args: seq<string>, lazy: bool)
    requires WellFormed(c) && |c.required| <= |args|
    requires forall x :: |c.required| <= x < |args| ==> '=' !in args[x]
    requires Parse(c, apply, call0, args, lazy).Ok?
    ensures var vals := Parse(c, apply, call0, args, lazy).value;
      var rest := args[|c.required|..];
      && |vals| == |c.required| + |c.optional|
      && (forall i :: 0 <= i < |c.required| ==> Cast(c, apply, args[i], c.required[i]) == Ok(vals[i]))
      && (forall x :: 0 <= x < |c.optional| && x < |rest| ==>
            Cast(c, apply, rest[x], c.optional[x]) == Ok(vals[|c.required| + x]))
      && (forall x :: |rest| <= x < |c.optional| ==> DefaultValue(c, call0, c.optional[x]) == Ok(vals[|c.required| + x]))
  {
    PositionalBind(c, apply, call0, args, lazy);
    var p2 := BindTokens(c, apply, Rest(c, args), 0, BindRequired(c, apply, args, 0, map[]).value, false).value;
    CollectAt(c, FillDefaults(c, call0, 0, p2, lazy).value);
  }

  lemma {:induction false} AllBoundDrop(c: Converter, apply: (Elem, string) -> Option<Value>, toks: seq<string>,
                                        j: nat, p: map<string, Value>)
    requires j <= |toks|
    requires forall x :: j <= x < |toks| ==> '=' !in toks[x]
    requires forall x :: 0 <= x < |c.optional| ==> c.optional[x] in p
    ensures BindTokens(c, apply, toks, j, p, false) == Ok(p)
    decreases |toks| - j
  {
    if j < |toks| {
      assert FirstUnbound(c.optional, p, 0).None?;
      AllBoundDrop(c, apply, toks, j + 1, p);
    }
  }

  lemma {:induction false} SurplusFrom(c: Converter, apply: (Elem, string) -> Option<Value>, toks: seq<string>,
                                       j: nat, p: map<string, Value>, m: nat)
    requires Distinct(c.optional)
    requires m <= |c.optional| && j + (|c.optional| - m) <= |toks|
    requires forall x :: j <= x < |toks| ==> '=' !in toks[x]
    requires forall x :: 0 <= x < m ==> c.optional[x] in p
    requires forall x :: m <= x < |c.optional| ==> c.optional[x] !in p
    ensures BindTokens(c, apply, toks, j, p, false) == BindTokens(c, apply, toks[..j + (|c.optional| - m)], j, p, false)
    decreases |c.optional| - m
  {
    var short := toks[..j + (|c.optional| - m)];
    if m == |c.optional| {
      AllBoundDrop(c, apply, toks, j, p);
    } else {
      var key := c.optional[m];
      FirstUnboundIs(c.optional, p, m);
      assert short[j] == toks[j];
      var r := Cast(c, apply, toks[j], key);
      if r.Ok? {
        var p' := p[key := r.value];
        forall x | m < x < |c.optional| ensures c.optional[x] !in p' {
          assert c.optional[x] != key;
        }
        SurplusFrom(c, apply, toks, j + 1, p', m + 1);
        assert BindTokens(c, apply, toks, j, p, false) == BindTokens(c, apply, toks, j + 1, p', false);
        assert BindTokens(c, apply, short, j, p, false) == BindTokens(c, apply, short, j + 1, p', false);
      }
    }
  }

  lemma {:induction false} BindRequiredPrefix(c: Converter, apply: (Elem, string) -> Option<Value>, args: seq<string>,
                                              n: nat, i: nat, p: map<string, Value>)
    requires i <= |c.required| <= n <= |args|
    ensures BindRequired(c, apply, args, i, p) == BindRequired(c, apply, args[..n], i, p)
    decreases |c.required| - i
  {
    if i < |c.required| {
      assert args[..n][i] == args[i];
      var r := Cast(c, apply, args[i], c.required[i]);
      if r.Ok? {
        BindRequiredPrefix(c, apply, args, n, i + 1, p[c.required[i] := r.value]);
      }
    }
  }

  /** Parsing depends on the parts only through the first two loops. */
  lemma ParseAgrees(c: Converter, apply: (Elem, string) -> Option<Value>, call0: Elem -> Option<Value>,
                    args: seq<string>, args': seq<string>, lazy: bool)
    requires BindRequired(c, apply, args, 0, map[]) == BindRequired(c, apply, args', 0, map[])
    requires BindRequired(c, apply, args, 0, map[]).Ok? ==>
      var p1 := BindRequired(c, apply, args, 0, map[]).value;
      BindTokens(c, apply, Rest(c, args), 0, p1, false) == BindTokens(c, apply, Rest(c, args'), 0, p1, false)
    ensures Parse(c, apply, call0, args, lazy) == Parse(c, apply, call0, args', lazy)
  {
  }

  lemma SurplusTokens(c: Converter, apply: (Elem, string) -> Option<Value>, args: seq<string>)
    requires WellFormed(c)
    requires |c.required| + |c.optional| < |args|
    requires forall x :: |c.required| <= x < |args| ==> '=' !in args[x]
    requires BindRequired(c, apply, args, 0, map[]).Ok?
    ensures var p1 := BindRequired(c, apply, args, 0, map[]).value;
      BindTokens(c, apply, Rest(c, args), 0, p1, false) ==
      BindTokens(c, apply, Rest(c, args[..|c.required| + |c.optional|]), 0, p1, false)
  {
    BindRequiredOk(c, apply, args, 0, map[]);
    RequiredPhase(c, apply, args);
    var p1 := BindRequired(c, apply, args, 0, map[]).value;
    var rest := Rest(c, args);
    assert rest == args[|c.required|..];
    SurplusFrom(c, apply, rest, 0, p1, 0);
    assert rest[..|c.optional|] == Rest(c, args[..|c.required| + |c.optional|]);
  }

  /** Plain parts beyond one per argument are ignored: parsing gives what it gives without them. */
  lemma SurplusDropped(c: Converter, apply: (Elem, string) -> Option<Value>, call0: Elem -> Option<Value>,
                       args: seq<string>, lazy: bool)
    requires WellFormed(c)
    requires |c.required| + |c.optional| < |args|
    requires forall x :: |c.required| <= x < |args| ==> '=' !in args[x]
    ensures Parse(c, apply, call0, args, lazy) == Parse(c, apply, call0, args[..|c.required| + |c.optional|], lazy)
  {
    var n := |c.required| + |c.optional|;
    var short := args[..n];
    BindRequiredPrefix(c, apply, args, n, 0, map[]);
    var b := BindRequired(c, apply, args, 0, map[]);
    if b.Ok? {
      SurplusTokens(c, apply, args);
    }
    ParseAgrees(c, apply, call0, args, short, lazy);
  }

  /** Once a named part has been seen, the loop succeeds only when every later part is named. */
  lemma {:induction false} NamedModeSticky(c: Converter, apply: (Elem, string) -> Option<Value>, toks: seq<string>,
                                           j: nat, p: map<string, Value>)
    requires j <= |toks| && BindTokens(c, apply, toks, j, p, true).Ok?
    ensures forall x :: j <= x < |toks| ==> '=' in toks[x]
    decreases |toks| - j
  {
    if j == |toks| {
    } else {
      var arg := toks[j];
      if '=' in arg {
        var split := SplitNamed(arg);
        assert split.Some?;
        var (key, value) := split.value;
        assert key !in p && key in c.optional && Cast(c, apply, value, key).Ok?;
        var p' := p[key := Cast(c, apply, value, key).value];
        assert BindTokens(c, apply, toks, j, p, true) == BindTokens(c, apply, toks, j + 1, p', true);
        NamedModeSticky(c, apply, toks, j + 1, p');
        assert forall x :: j < x < |toks| ==> '=' in toks[x];
        assert '=' in toks[j];
      }
    }
  }

  lemma NamedHasEquals(arg: string, key: string, value: string)
    requires SplitNamed(arg) == Some((key, value))
    ensures '=' in arg
  {
    assert arg[|key|] == '=';
  }

  /** A first part after the required ones naming a required argument gives it twice; one naming
      no argument at all is unknown. */
  lemma NamedPartErrors(c: Converter, apply: (Elem, string) -> Option<Value>, call0: Elem -> Option<Value>,
                        args: seq<string>, lazy: bool, key: string, value: string)
    requires WellFormed(c) && PartsCast(c, apply, args, 0)
    requires |c.required| < |args| && SplitNamed(args[|c.required|]) == Some((key, value))
    ensures key in c.required ==> Parse(c, apply, call0, args, lazy) == Err(Duplicate(key))
    ensures key !in c.required && key !in c.optional ==> Parse(c, apply, call0, args, lazy) == Err(Unknown(key))
  {
    RequiredPhase(c, apply, args);
    var p1 := BindRequired(c, apply, args, 0, map[]).value;
    var rest := Rest(c, args);
    assert rest[0] == args[|c.required|];
    NamedHasEquals(rest[0], key, value);
    if key in c.required {
      var i :| 0 <= i < |c.required| && c.required[i] == key;
      assert BindTokens(c, apply, rest, 0, p1, false) == Err(Duplicate(key));
    } else if key !in c.optional {
      assert BindTokens(c, apply, rest, 0, p1, false) == Err(Unknown(key));
    }
  }

  /** An optional already bound by a plain part cannot be given again by name. */
  lemma PlainThenNamedSame(c: Converter, apply: (Elem, string) -> Option<Value>, call0: Elem -> Option<Value>,
                           args: seq<string>, lazy: bool, value: string)
    requires WellFormed(c) && |c.optional| > 0 && PartsCast(c, apply, args, 0)
    requires |c.required| + 2 <= |args|
    requires '=' !in args[|c.required|] && Cast(c, apply, args[|c.required|], c.optional[0]).Ok?
    requires SplitNamed(args[|c.required| + 1]) == Some((c.optional[0], value))
    ensures Parse(c, apply, call0, args, lazy) == Err(Duplicate(c.optional[0]))
  {
    RequiredPhase(c, apply, args);
    var p1 := BindRequired(c, apply, args, 0, map[]).value;
    var rest := Rest(c, args);
    assert rest[0] == args[|c.required|] && rest[1] == args[|c.required| + 1];
    var key := c.optional[0];
    FirstUnboundIs(c.optional, p1, 0);
    var p' := p1[key := Cast(c, apply, rest[0], key).value];
    assert BindTokens(c, apply, rest, 0, p1, false) == BindTokens(c, apply, rest, 1, p', false);
    NamedHasEquals(rest[1], key, value);
    assert BindTokens(c, apply, rest, 1, p', false) == Err(Duplicate(key));
  }

  /** A plain part after a named one is a syntax error. */
  lemma PlainAfterNamed(c: Converter, apply: (Elem, string) -> Option<Value>, call0: Elem -> Option<Value>,
                        args: seq<string>, lazy: bool, key: string, value: string)
    requires WellFormed(c) && PartsCast(c, apply, args, 0)
    requires |c.required| + 2 <= |args|
    requires SplitNamed(args[|c.required|]) == Some((key, value)) && key in c.optional
    requires Cast(c, apply, value, key).Ok?
    requires '=' !in args[|c.required| + 1]
    ensures Parse(c, apply, call0, args, lazy) == Err(PositionalAfterNamed)
  {
    RequiredPhase(c, apply, args);
    var p1 := BindRequired(c, apply, args, 0, map[]).value;
    var rest := Rest(c, args);
    assert rest[0] == args[|c.required|] && rest[1] == args[|c.required| + 1];
    assert key !in p1;
    NamedHasEquals(rest[0], key, value);
    var p' := p1[key := Cast(c, apply, value, key).value];
    assert BindTokens(c, apply, rest, 0, p1, false) == BindTokens(c, apply, rest, 1, p', true);
    assert BindTokens(c, apply, rest, 1, p', true) == Err(PositionalAfterNamed);
  }

  /** At any point of the second loop, a named part whose name is already bound gives it twice,
      and one naming no optional is unknown. */
  lemma NamedBoundFails(c: Converter, apply: (Elem, string) -> Option<Value>, toks: seq<string>, j: nat,
                        p: map<string, Value>, found: bool, key: string, value: string)
    requires j < |toks| && SplitNamed(toks[j]) == Some((key, value))
    ensures key in p ==> BindTokens(c, apply, toks, j, p, found) == Err(Duplicate(key))
    ensures key !in p && key !in c.optional ==> BindTokens(c, apply, toks, j, p, found) == Err(Unknown(key))
  {
    NamedHasEquals(toks[j], key, value);
  }

  /** Every named part from j on names an optional outside `bound`. */
  predicate NamesOptionalsOutside(c: Converter, toks: seq<string>, j: nat, bound: map<string, Value>) {
    forall y :: j <= y < |toks| && SplitNamed(toks[y]).Some? ==>
      SplitNamed(toks[y]).value.0 in c.optional && SplitNamed(toks[y]).value.0 !in bound
  }

  /** No two named parts from j on name the same argument. */
  predicate NamesDistinct(toks: seq<string>, j: nat) {
    forall x, y :: j <= x < y < |toks| && SplitNamed(toks[x]).Some? && SplitNamed(toks[y]).Some? ==>
      SplitNamed(toks[x]).value.0 != SplitNamed(toks[y]).value.0
  }

  /** No named part names the optional that a plain part before it binds, when the plain part at
      j + d binds optional m + d. */
  predicate PlainNotRenamed(c: Converter, toks: seq<string>, j: nat, m: nat) {
    forall x, y :: j <= x < y < |toks| && '=' !in toks[x] && m + x - j < |c.optional| && SplitNamed(toks[y]).Some? ==>
      SplitNamed(toks[y]).value.0 != c.optional[m + x - j]
  }

  /** One successful step of the second loop: part j binds one name or none, and a step after a
      named part is itself in named mode. */
  lemma BindOkStep(c: Converter, apply: (Elem, string) -> Option<Value>, toks: seq<string>, j: nat,
                   p: map<string, Value>, found: bool)
    returns (p': map<string, Value>, found': bool)
    requires j < |toks| && BindTokens(c, apply, toks, j, p, found).Ok?
    ensures BindTokens(c, apply, toks, j, p, found) == BindTokens(c, apply, toks, j + 1, p', found')
    ensures p.Keys <= p'.Keys && (found ==> found')
    ensures SplitNamed(toks[j]).Some? ==> var key := SplitNamed(toks[j]).value.0;
      key in c.optional && key !in p && key in p' && found'
    ensures '=' in toks[j] ==> SplitNamed(toks[j]).Some?
    ensures '=' !in toks[j] ==> !found && !found' && match FirstUnbound(c.optional, p, 0)
      case None => p' == p
      case Some(k) => p' == p[c.optional[k] := Cast(c, apply, toks[j], c.optional[k]).value]
    ensures '=' !in toks[j] ==>
      p'.Keys == if FirstUnbound(c.optional, p, 0).Some? then p.Keys + {c.optional[FirstUnbound(c.optional, p, 0).value]} else p.Keys
  {
    var arg := toks[j];
    p', found' := p, found;
    if '=' in arg {
      var (key, value) := SplitNamed(arg).value;
      p', found' := p[key := Cast(c, apply, value, key).value], true;
    } else {
      if FirstUnbound(c.optional, p, 0).Some? {
        var key := c.optional[FirstUnbound(c.optional, p, 0).value];
        p' := p[key := Cast(c, apply, arg, key).value];
      }
      if SplitNamed(arg).Some? {
        NamedHasEquals(arg, SplitNamed(arg).value.0, SplitNamed(arg).value.1);
      }
    }
  }

  /** In a second loop that succeeds from part j on, every named part names an optional not bound
      before j. */
  lemma {:induction false} NamedKeysFresh(c: Converter, apply: (Elem, string) -> Option<Value>, toks: seq<string>,
                                          j: nat, p: map<string, Value>, found: bool)
    requires j <= |toks| && BindTokens(c, apply, toks, j, p, found).Ok?
    ensures NamesOptionalsOutside(c, toks, j, p)
    decreases |toks| - j
  {
    if j < |toks| {
      var p', found' := BindOkStep(c, apply, toks, j, p, found);
      NamedKeysFresh(c, apply, toks, j + 1, p', found');
    }
  }

  /** In a second loop that succeeds from part j on, no two named parts name the same optional. */
  lemma {:induction false} NamedKeysDistinct(c: Converter, apply: (Elem, string) -> Option<Value>, toks: seq<string>,
                                             j: nat, p: map<string, Value>, found: bool)
    requires j <= |toks| && BindTokens(c, apply, toks, j, p, found).Ok?
    ensures NamesDistinct(toks, j)
    decreases |toks| - j
  {
    if j < |toks| {
      var p', found' := BindOkStep(c, apply, toks, j, p, found);
      NamedKeysDistinct(c, apply, toks, j + 1, p', found');
      NamedKeysFresh(c, apply, toks, j + 1, p', found');
    }
  }

  /** In a second loop that succeeds from part j on, before any part is named and with optionals
      0 to m - 1 bound already, no named part names an optional that a plain part before it binds. */
  lemma {:induction false} PlainKeysNotRenamed(c: Converter, apply: (Elem, string) -> Option<Value>, toks: seq<string>,
                                               j: nat, p: map<string, Value>, m: nat)
    requires Distinct(c.optional) && m <= |c.optional|
    requires j <= |toks| && BindTokens(c, apply, toks, j, p, false).Ok?
    requires forall x :: 0 <= x < m ==> c.optional[x] in p
    requires forall x :: m <= x < |c.optional| ==> c.optional[x] !in p
    ensures PlainNotRenamed(c, toks, j, m)
    decreases |toks| - j
  {
    if j < |toks| && '=' in toks[j] {
      NamedBranchNotRenamed(c, apply, toks, j, p, m);
    } else if j < |toks| {
      var p', found' := BindOkStep(c, apply, toks, j, p, false);
      var m' := if m < |c.optional| then m + 1 else m;
      if m < |c.optional| {
        PlainBindsNext(c, apply, toks, j, p, m, p');
      }
      PlainKeysNotRenamed(c, apply, toks, j + 1, p', m');
      NamedKeysFresh(c, apply, toks, j + 1, p', false);
      PlainStepNotRenamed(c, toks, j, m, p');
    }
  }

  /** A named part at j: every later part is named too, so there is no plain part to rename. */
  lemma NamedBranchNotRenamed(c: Converter, apply: (Elem, string) -> Option<Value>, toks: seq<string>,
                              j: nat, p: map<string, Value>, m: nat)
    requires j < |toks| && '=' in toks[j] && BindTokens(c, apply, toks, j, p, false).Ok?
    ensures PlainNotRenamed(c, toks, j, m)
  {
    var p', found' := BindOkStep(c, apply, toks, j, p, false);
    NamedModeSticky(c, apply, toks, j + 1, p');
    NamedFromHere(c, toks, j, m);
  }

  /** A plain part at j, with optionals 0 to m - 1 bound and the rest not, binds optional m. */
  lemma PlainBindsNext(c: Converter, apply: (Elem, string) -> Option<Value>, toks: seq<string>,
                       j: nat, p: map<string, Value>, m: nat, p': map<string, Value>)
    requires Distinct(c.optional) && m < |c.optional|
    requires j < |toks| && '=' !in toks[j]
    requires forall x :: 0 <= x < m ==> c.optional[x] in p
    requires forall x :: m <= x < |c.optional| ==> c.optional[x] !in p
    requires p'.Keys == if FirstUnbound(c.optional, p, 0).Some? then p.Keys + {c.optional[FirstUnbound(c.optional, p, 0).value]} else p.Keys
    ensures c.optional[m] in p'
    ensures forall x :: 0 <= x < m + 1 ==> c.optional[x] in p'
    ensures forall x :: m + 1 <= x < |c.optional| ==> c.optional[x] !in p'
  {
    FirstUnboundIs(c.optional, p, m);
    forall x | m + 1 <= x < |c.optional| ensures c.optional[x] !in p' {
      assert c.optional[x] != c.optional[m];
    }
  }

  /** When every part from j on is named, no plain part is renamed. */
  lemma NamedFromHere(c: Converter, toks: seq<string>, j: nat, m: nat)
    requires j < |toks| && '=' in toks[j] && forall x :: j < x < |toks| ==> '=' in toks[x]
    ensures PlainNotRenamed(c, toks, j, m)
  {
  }

  /** A plain part at j that binds optional m (or none, when m is past the optionals), followed by
      parts that keep the property from j + 1 with optional m + 1 next. */
  lemma PlainStepNotRenamed(c: Converter, toks: seq<string>, j: nat, m: nat, p': map<string, Value>)
    requires j < |toks| && '=' !in toks[j]
    requires m < |c.optional| ==> c.optional[m] in p' && NamesOptionalsOutside(c, toks, j + 1, p')
    requires PlainNotRenamed(c, toks, j + 1, m + 1) || (m >= |c.optional| && PlainNotRenamed(c, toks, j + 1, m))
    ensures PlainNotRenamed(c, toks, j, m)
  {
    forall x, y | j <= x < y < |toks| && '=' !in toks[x] && m + x - j < |c.optional| && SplitNamed(toks[y]).Some?
      ensures SplitNamed(toks[y]).value.0 != c.optional[m + x - j]
    {
      if x > j {
        assert m + 1 + x - (j + 1) == m + x - j;
      }
    }
  }

  /** When `parse_args` succeeds, every named part after the required ones names an optional, so
      none names a required argument; no two name the same optional; and none names an optional
      that a plain part has bound (the plain part at d after the required ones binds optional d). */
  lemma ParsedNamesFresh(c: Converter, apply: (Elem, string) -> Option<Value>, call0: Elem -> Option<Value>,
                         args: seq<string>, lazy: bool)
    requires WellFormed(c) && Parse(c, apply, call0, args, lazy).Ok?
    ensures |c.required| <= |args|
    ensures forall y :: |c.required| <= y < |args| && SplitNamed(args[y]).Some? ==>
      SplitNamed(args[y]).value.0 in c.optional && SplitNamed(args[y]).value.0 !in c.required
    ensures NamesDistinct(args, |c.required|)
    ensures PlainNotRenamed(c, args, |c.required|, 0)
  {
    BindRequiredOk(c, apply, args, 0, map[]);
    RequiredPhase(c, apply, args);
    var p1 := BindRequired(c, apply, args, 0, map[]).value;
    var n := |c.required|;
    var rest := Rest(c, args);
    assert rest == args[n..];
    NamedKeysFresh(c, apply, rest, 0, p1, false);
    NamedKeysDistinct(c, apply, rest, 0, p1, false);
    PlainKeysNotRenamed(c, apply, rest, 0, p1, 0);
    ShiftedNames(c, args, n, p1);
    forall k | k in c.required ensures k in p1 {
      var i :| 0 <= i < n && c.required[i] == k;
    }
  }

  /** The three facts about the parts after the required ones, read on the whole part list. */
  lemma ShiftedNames(c: Converter, args: seq<string>, n: nat, p1: map<string, Value>)
    requires n <= |args|
    requires NamesOptionalsOutside(c, args[n..], 0, p1)
    requires NamesDistinct(args[n..], 0)
    requires PlainNotRenamed(c, args[n..], 0, 0)
    ensures NamesOptionalsOutside(c, args, n, p1)
    ensures NamesDistinct(args, n)
    ensures PlainNotRenamed(c, args, n, 0)
  {
    var rest := args[n..];
    forall y | n <= y < |args| ensures args[y] == rest[y - n] { }
  }

  lemma {:induction false} BindTokensSameSuffix(c: Converter, apply: (Elem, string) -> Option<Value>,
                                                toks: seq<string>, toks2: seq<string>, j: nat,
                                                p: map<string, Value>, found: bool)
    requires j <= |toks| == |toks2| && toks[j..] == toks2[j..]
    ensures BindTokens(c, apply, toks, j, p, found) == BindTokens(c, apply, toks2, j, p, found)
    decreases |toks| - j
  {
    if j < |toks| {
      assert toks[j] == toks[j..][0] == toks2[j..][0] == toks2[j];
      assert toks[j + 1..] == toks[j..][1..] && toks2[j + 1..] == toks2[j..][1..];
      var arg := toks[j];
      if '=' in arg {
        if SplitNamed(arg).Some? {
          var (key, value) := SplitNamed(arg).value;
          var r := Cast(c, apply, value, key);
          if r.Ok? {
            BindTokensSameSuffix(c, apply, toks, toks2, j + 1, p[key := r.value], true);
          }
        }
      } else if !found {
        var u := FirstUnbound(c.optional, p, 0);
        if u.Some? {
          var key := c.optional[u.value];
          var r := Cast(c, apply, arg, key);
          if r.Ok? {
            BindTokensSameSuffix(c, apply, toks, toks2, j + 1, p[key := r.value], found);
          }
        } else {
          BindTokensSameSuffix(c, apply, toks, toks2, j + 1, p, found);
        }
      }
    }
  }

  /** A named part for an unbound optional binds it and switches to named mode. */
  lemma {:induction false} NamedStep(c: Converter, apply: (Elem, string) -> Option<Value>, toks: seq<string>, j: nat,
                  p: map<string, Value>, found: bool, key: string, value: string)
    requires j < |toks| && SplitNamed(toks[j]) == Some((key, value))
    requires key in c.optional && key !in p && Cast(c, apply, value, key).Ok?
    ensures BindTokens(c, apply, toks, j, p, found) ==
      BindTokens(c, apply, toks, j + 1, p[key := Cast(c, apply, value, key).value], true)
  {
    NamedHasEquals(toks[j], key, value);
  }

  /** Binding two different names gives the same dictionary in either order. */
  lemma UpdatesCommute(p: map<string, Value>, ka: string, a: Value, kb: string, b: Value)
    requires ka != kb
    ensures p[ka := a][kb := b] == p[kb := b][ka := a]
  {
  }

  /** Two named parts for different unbound optionals bind both. */
  lemma {:induction false} TwoNamedSteps(c: Converter, apply: (Elem, string) -> Option<Value>, toks: seq<string>,
                                         j: nat, p: map<string, Value>, found: bool,
                                         ka: string, va: string, kb: string, vb: string)
    requires j + 2 <= |toks|
    requires SplitNamed(toks[j]) == Some((ka, va)) && SplitNamed(toks[j + 1]) == Some((kb, vb))
    requires ka != kb && ka in c.optional && kb in c.optional && ka !in p && kb !in p
    requires Cast(c, apply, va, ka).Ok? && Cast(c, apply, vb, kb).Ok?
    ensures BindTokens(c, apply, toks, j, p, found) ==
      BindTokens(c, apply, toks, j + 2, p[ka := Cast(c, apply, va, ka).value][kb := Cast(c, apply, vb, kb).value], true)
  {
    var a := Cast(c, apply, va, ka).value;
    NamedStep(c, apply, toks, j, p, found, ka, va);
    NamedStep(c, apply, toks, j + 1, p[ka := a], true, kb, vb);
  }

  /** Two adjacent named parts for different unbound optionals bind the same whichever comes
      first: `toks2` is `toks` with the parts at `j` and `j + 1` exchanged. */
  lemma {:induction false} NamedPartsCommute(c: Converter, apply: (Elem, string) -> Option<Value>, toks: seq<string>,
                          toks2: seq<string>, j: nat, p: map<string, Value>, found: bool,
                          ka: string, va: string, kb: string, vb: string)
    requires j + 2 <= |toks| == |toks2| && toks2[j] == toks[j + 1] && toks2[j + 1] == toks[j]
    requires toks2[j + 2..] == toks[j + 2..]
    requires SplitNamed(toks[j]) == Some((ka, va)) && SplitNamed(toks[j + 1]) == Some((kb, vb))
    requires ka != kb && ka in c.optional && kb in c.optional && ka !in p && kb !in p
    requires Cast(c, apply, va, ka).Ok? && Cast(c, apply, vb, kb).Ok?
    ensures BindTokens(c, apply, toks, j, p, found) == BindTokens(c, apply, toks2, j, p, found)
  {
    var a := Cast(c, apply, va, ka).value;
    var b := Cast(c, apply, vb, kb).value;
    TwoNamedSteps(c, apply, toks, j, p, found, ka, va, kb, vb);
    TwoNamedSteps(c, apply, toks2, j, p, found, kb, vb, ka, va);
    UpdatesCommute(p, ka, a, kb, b);
    BindTokensSameSuffix(c, apply, toks, toks2, j + 2, p[ka := a][kb := b], true);
  }

  /** Binding the required arguments binds no optional. */
  lemma RequiredLeavesOptionals(c: Converter, apply: (Elem, string) -> Option<Value>, args: seq<string>)
    requires WellFormed(c) && PartsCast(c, apply, args, 0)
    ensures BindRequired(c, apply, args, 0, map[]).Ok?
    ensures forall x :: 0 <= x < |c.optional| ==> c.optional[x] !in BindRequired(c, apply, args, 0, map[]).value
  {
    RequiredPhase(c, apply, args);
  }

  /** The required arguments bind the same from two part lists that agree on their first parts. */
  lemma RequiredSamePrefix(c: Converter, apply: (Elem, string) -> Option<Value>, args: seq<string>, args2: seq<string>)
    requires |c.required| <= |args| && |c.required| <= |args2|
    requires args[..|c.required|] == args2[..|c.required|]
    ensures BindRequired(c, apply, args, 0, map[]) == BindRequired(c, apply, args2, 0, map[])
  {
    BindRequiredPrefix(c, apply, args, |c.required|, 0, map[]);
    BindRequiredPrefix(c, apply, args2, |c.required|, 0, map[]);
  }

  /** Exchanging the parts at `n` and `n + 1`. */
  function SwapNext(args: seq<string>, n: nat): (r: seq<string>)
    requires n + 2 <= |args|
    ensures |r| == |args| && r[..n] == args[..n] && r[n] == args[n + 1] && r[n + 1] == args[n]
    ensures r[n..][2..] == args[n..][2..]
  {
    args[..n] + [args[n + 1], args[n]] + args[n + 2..]
  }

  /** Two named parts right after the required ones may come in either order. */
  lemma NamedOrderIrrelevant(c: Converter, apply: (Elem, string) -> Option<Value>, call0: Elem -> Option<Value>,
                             args: seq<string>, lazy: bool, ka: string, va: string, kb: string, vb: string)
    requires WellFormed(c) && PartsCast(c, apply, args, 0)
    requires |c.required| + 2 <= |args|
    requires SplitNamed(args[|c.required|]) == Some((ka, va)) && SplitNamed(args[|c.required| + 1]) == Some((kb, vb))
    requires ka != kb && ka in c.optional && kb in c.optional
    requires Cast(c, apply, va, ka).Ok? && Cast(c, apply, vb, kb).Ok?
    ensures Parse(c, apply, call0, args, lazy) == Parse(c, apply, call0, SwapNext(args, |c.required|), lazy)
  {
    var n := |c.required|;
    var args2 := SwapNext(args, n);
    RequiredSamePrefix(c, apply, args, args2);
    RequiredLeavesOptionals(c, apply, args);
    var p1 := BindRequired(c, apply, args, 0, map[]).value;
    assert ka !in p1 && kb !in p1;
    var rest := Rest(c, args);
    var rest2 := Rest(c, args2);
    assert rest == args[n..] && rest2 == args2[n..];
    assert rest2[0] == rest[1] && rest2[1] == rest[0];
    NamedPartsCommute(c, apply, rest, rest2, 0, p1, false, ka, va, kb, vb);
    ParseAgrees(c, apply, call0, args, args2, lazy);
  }

  // ---------------------------------------------------------------------------------------
  // Default providers of bound optionals

  /** As written, the third loop asks every optional's default provider for a value, even for an
      optional that a part has already bound: `n=(int, provider)` given the part "5" fails when
      the provider does, although its value would be thrown away. Worked out only when needed,
      the same call returns the bound value. */
  lemma ProviderCalledForBoundOptional(apply: (Elem, string) -> Option<Value>, call0: Elem -> Option<Value>)
    requires apply(Callable(1, 1), "5") == Some(Obj(5)) && call0(Callable(0, 0)) == None
    ensures Classified([("n", Tuple([Callable(1, 1), Callable(0, 0)]))]).Ok?
    ensures var c := Schema(None, Classified([("n", Tuple([Callable(1, 1), Callable(0, 0)]))]).value);
      && c.required == [] && c.optional == ["n"]
      && Parse(c, apply, call0, ["5"], false) == Err(DefaultFailed("n"))
      && Parse(c, apply, call0, ["5"], true) == Ok([Obj(5)])
  {
    var kwargs := [("n", Tuple([Callable(1, 1), Callable(0, 0)]))];
    var es := [("n", Optional(Callable(1, 1), Callable(0, 0), None))];
    assert kwargs[..0] == [] && Classified([]) == Ok([]);
    assert Classify("n", Tuple([Callable(1, 1), Callable(0, 0)])) == Ok(Optional(Callable(1, 1), Callable(0, 0), None));
    assert Classified(kwargs) == Ok([] + es);
    assert es[..0] == [];
    var c := Schema(None, es);
    assert c.required == [] && c.optional == ["n"];
    assert c.defaults == map["n" := Callable(0, 0)] && c.targetType == map["n" := Callable(1, 1)] && c.castFuncs == map[];
    assert Rest(c, ["5"]) == ["5"];
    assert '=' !in "5";
    var bound := map["n" := Obj(5)];
    assert BindTokens(c, apply, ["5"], 0, map[], false) == BindTokens(c, apply, ["5"], 1, bound, false);
    assert FillDefaults(c, call0, 0, bound, true) == Ok(bound);
    assert Collect(c, bound) == [Obj(5)];
  }

  lemma {:induction false} FillLazyAllBound(c: Converter, call0: Elem -> Option<Value>, k: nat, p: map<string, Value>)
    requires k <= |c.optional|
    requires forall x :: k <= x < |c.optional| ==> c.optional[x] in p
    ensures FillDefaults(c, call0, k, p, true) == Ok(p)
    decreases |c.optional| - k
  {
    if k < |c.optional| {
      FillLazyAllBound(c, call0, k + 1, p);
    }
  }

  /** Working out defaults only when needed, a call whose parts bind every argument succeeds
      whatever the default providers do, and does not depend on them. */
  lemma LazyDefaultsUnused(c: Converter, apply: (Elem, string) -> Option<Value>,
                           call0: Elem -> Option<Value>, call0': Elem -> Option<Value>, args: seq<string>)
    requires WellFormed(c) && PartsCast(c, apply, args, 0)
    requires |c.required| + |c.optional| <= |args|
    requires forall x :: |c.required| <= x < |args| ==> '=' !in args[x]
    requires CastsPairwise(c, apply, args[|c.required|..], c.optional)
    ensures Parse(c, apply, call0, args, true).Ok?
    ensures Parse(c, apply, call0, args, true) == Parse(c, apply, call0', args, true)
  {
    RequiredLeavesOptionals(c, apply, args);
    var p1 := BindRequired(c, apply, args, 0, map[]).value;
    var rest := args[|c.required|..];
    assert Rest(c, args) == rest && rest[0..] == rest && c.optional[0..] == c.optional;
    BareTokensFill(c, apply, rest, 0, p1, 0);
    var p2 := BindTokens(c, apply, rest, 0, p1, false).value;
    assert forall x :: 0 <= x < |c.optional| ==> c.optional[x] in p2;
    FillLazyAllBound(c, call0, 0, p2);
    FillLazyAllBound(c, call0', 0, p2);
    assert Parse(c, apply, call0, args, true) == Ok(Collect(c, p2));
    assert Parse(c, apply, call0', args, true) == Ok(Collect(c, p2));
  }
}
