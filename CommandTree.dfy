/** The chain command handler: a tree of handlers, each listening for a set of commands, that
    either calls back (a leaf) or hands the rest of the text to its sub-handlers in order (a
    router), falling back to a default handler. Matching yields a verdict whose index stack is
    built innermost-first; handling pops that stack outermost-first to reach the same leaf.
    The scratch text that the library threads through a mutable `temp_message` field is passed
    here by value, in `Update.temp`. */
module ChainCommand {
  import opened Wrappers
  import opened Tokenizer

  type CallbackId = nat
  type FilterId = nat

  /** The filter a handler holds: the one given to the constructor, or `filters.TEXT`. */
  datatype Filter = TextFilter | Custom(id: FilterId)

  /** What a filter's `check_update` returns: nothing, a bool, or a data filter's dictionary. */
  datatype FilterResult = FNone | FBool(b: bool) | FData(data: map<string, seq<string>>)

  /** Python truthiness of a filter result (an empty dictionary is false). */
  predicate Truthy(r: FilterResult) {
    r == FBool(true) || (r.FData? && |r.data| > 0)
  }

  /** A handler with its sub-handlers; built once and never changed afterwards. */
  datatype Node =
    | Leaf(cmds: set<string>, filter: Filter, callback: CallbackId)
    | Router(cmds: set<string>, filter: Filter, children: seq<Node>, default: Option<Node>)

  /** An update as matching sees it: the message text and the scratch text, if one was set. */
  datatype Update = Update(text: string, temp: Option<string>)

  /** `update.temp_message or update.message`, as text. */
  function MessageText(u: Update): string {
    if u.temp.Some? then u.temp.value else u.text
  }

  /** `None`, `False`, or `(ind_stack, args, filter_result)`. */
  datatype Verdict =
    | NoMatch
    | Rejected
    | Matched(stack: seq<int>, args: seq<string>, data: FilterResult)

  // ---------------------------------------------------------------------------------------
  // Construction

  datatype ConstructionError =
    | CallbackXorSubHandlers          // AttributeError: both or neither of callback and sub-handlers
    | DefaultWithoutSubHandlers       // AttributeError: a default on a handler with a callback
    | InvalidCommand(command: string) // ValueError: the command is not a valid bot command
    | FiltersOnEmptyCommand           // AttributeError: filters together with the empty command
    | EmptyCommandWithSubHandlers     // only raised by the corrected constructor

  predicate CommandChar(c: char) {
    ('0' <= c <= '9') || ('a' <= c <= 'z') || c == '_' || c == '-'
  }

  predicate AllCommandChars(t: string) {
    forall i :: 0 <= i < |t| ==> CommandChar(t[i])
  }

  /** The whole of s matches `/?[0-9a-z_-]{1,32}`. */
  predicate ValidCommand(s: string) {
    var body := if s != [] && s[0] == '/' then s[1..] else s;
    1 <= |body| <= 32 && AllCommandChars(body)
  }

  /** `re.match(r"^/?[\da-z_-]{1,32}$", s)`: `$` also matches just before a final newline. */
  predicate ValidCommandAsWritten(s: string) {
    ValidCommand(s) || (s != [] && s[|s| - 1] == '\n' && ValidCommand(s[..|s| - 1]))
  }

  /** One pass of the constructor's command loop: which commands it lets through. */
  predicate CommandOk(c: string, hasFilters: bool, corrected: bool) {
    && (c != "" ==> if corrected then ValidCommand(c) else ValidCommandAsWritten(c))
    && (c == "" ==> !hasFilters)
  }

  function LowerAll(command: seq<string>): seq<string> {
    seq(|command|, i requires 0 <= i < |command| => Lower(command[i]))
  }

  /** The first error the command loop raises, walking the lower-cased commands in order. */
  function CommandError(cmds: seq<string>, hasFilters: bool, corrected: bool): (r: Option<ConstructionError>)
    ensures r.None? <==> forall i :: 0 <= i < |cmds| ==> CommandOk(cmds[i], hasFilters, corrected)
    ensures r.Some? ==> r.value.InvalidCommand? || r.value == FiltersOnEmptyCommand
    ensures r.Some? && r.value.InvalidCommand? ==>
      r.value.command in cmds && !CommandOk(r.value.command, hasFilters, corrected) && r.value.command != ""
    ensures r == Some(FiltersOnEmptyCommand) ==> "" in cmds && hasFilters
  {
    if cmds == [] then None
    else if !CommandOk(cmds[0], hasFilters, corrected) then
      if cmds[0] != "" then Some(InvalidCommand(cmds[0])) else Some(FiltersOnEmptyCommand)
    else CommandError(cmds[1..], hasFilters, corrected)
  }

  /** `ChainCommandHandler('', default)`: the handler the constructor makes of a default callback. */
  function DefaultHandler(callback: CallbackId): Node {
    Leaf({""}, TextFilter, callback)
  }

  /** `ChainCommandHandler.__init__`. With `corrected` false this is the library's constructor;
      with `corrected` true it also refuses a final newline in a command and the empty command on a
      handler with sub-handlers. */
  function Build(command: seq<string>, callback: Option<CallbackId>, subHandlers: Option<seq<Node>>,
                 filters: Option<FilterId>, default: Option<CallbackId>, corrected: bool)
    : (r: Result<Node, ConstructionError>)
    ensures callback.Some? == subHandlers.Some? ==> r == Err(CallbackXorSubHandlers)
    ensures callback.Some? != subHandlers.Some? && callback.Some? && default.Some? ==>
      r == Err(DefaultWithoutSubHandlers)
    ensures r.Ok? <==>
      && callback.Some? != subHandlers.Some?
      && !(default.Some? && callback.Some?)
      && (forall c :: c in LowerAll(command) ==> CommandOk(c, filters.Some?, corrected))
      && !(corrected && subHandlers.Some? && "" in LowerAll(command))
    ensures r.Err? && r.error.InvalidCommand? ==>
      r.error.command in LowerAll(command) && r.error.command != "" && !CommandOk(r.error.command, filters.Some?, corrected)
    ensures r == Err(FiltersOnEmptyCommand) ==> "" in LowerAll(command) && filters.Some?
    ensures r.Ok? ==>
      && (forall c :: c in r.value.cmds <==> c in LowerAll(command))
      && (r.value.Leaf? <==> callback.Some?)
      && r.value.filter == (if filters.Some? then Custom(filters.value) else TextFilter)
    ensures r.Ok? && r.value.Router? ==>
      && r.value.children == subHandlers.value
      && r.value.default == (if default.Some? then Some(DefaultHandler(default.value)) else None)
  {
    if callback.Some? == subHandlers.Some? then Err(CallbackXorSubHandlers)
    else if default.Some? && callback.Some? then Err(DefaultWithoutSubHandlers)
    else
      var cmds := LowerAll(command);
      match CommandError(cmds, filters.Some?, corrected)
      case Some(e) => Err(e)
      case None =>
        if corrected && subHandlers.Some? && "" in cmds then Err(EmptyCommandWithSubHandlers)
        else
          var commands := set c | c in cmds;
          var flt := if filters.Some? then Custom(filters.value) else TextFilter;
          if callback.Some? then Ok(Leaf(commands, flt, callback.value))
          else Ok(Router(commands, flt, subHandlers.value,
                         if default.Some? then Some(DefaultHandler(default.value)) else None))
  }

  /** What every handler built by the constructor satisfies, its sub-handlers included. */
  predicate Built(n: Node, corrected: bool)
    decreases n
  {
    && (forall c :: c in n.cmds ==> CommandOk(c, n.filter.Custom?, corrected))
    && match n
       case Leaf(_, _, _) => true
       case Router(cmds, _, children, default) =>
         && (corrected ==> "" !in cmds)
         && (default.Some? ==> default.value.Leaf? && default.value == DefaultHandler(default.value.callback))
         && forall i :: 0 <= i < |children| ==> Built(children[i], corrected)
  }

  /** No handler with sub-handlers, at any depth, listens for the empty command. */
  predicate NoEmptyRouter(n: Node)
    decreases n
  {
    match n
    case Leaf(_, _, _) => true
    case Router(cmds, _, children, _) => "" !in cmds && forall i :: 0 <= i < |children| ==> NoEmptyRouter(children[i])
  }

  /** A handler the constructor returns keeps the invariant, given constructed sub-handlers. */
  lemma BuildIsBuilt(command: seq<string>, callback: Option<CallbackId>, subHandlers: Option<seq<Node>>,
                     filters: Option<FilterId>, default: Option<CallbackId>, corrected: bool)
    requires subHandlers.Some? ==> forall i :: 0 <= i < |subHandlers.value| ==> Built(subHandlers.value[i], corrected)
    requires Build(command, callback, subHandlers, filters, default, corrected).Ok?
    ensures Built(Build(command, callback, subHandlers, filters, default, corrected).value, corrected)
  {
    var n := Build(command, callback, subHandlers, filters, default, corrected).value;
    forall c | c in n.cmds ensures CommandOk(c, n.filter.Custom?, corrected) {
      assert c in LowerAll(command);
    }
    if n.Router? && corrected {
      assert "" !in LowerAll(command);
    }
  }

  /** The default handler itself is accepted by the constructor. */
  lemma DefaultHandlerIsBuilt(callback: CallbackId, corrected: bool)
    ensures Build([""], Some(callback), None, None, None, corrected) == Ok(DefaultHandler(callback))
  {
    assert LowerAll([""]) == [""];
    assert (set c | c in [""]) == {""};
  }

  // ---------------------------------------------------------------------------------------
  // Matching (`check_update`)

  /** The scratch text handed to the sub-handlers: the text after the command, left-stripped. */
  function SubUpdate(u: Update, e: nat): Update
    requires e <= |MessageText(u)|
  {
    Update(u.text, Some(LStrip(MessageText(u)[e..])))
  }

  /** `check_update` of a handler. A match always carries truthy filter data, so the callback of a
      filter that answers falsy never runs. */
  function Check(n: Node, flt: (Filter, Update) -> FilterResult, u: Update): (v: Verdict)
    ensures v.Matched? ==> Truthy(v.data)
    decreases n, 1
  {
    var text := MessageText(u);
    if "" in n.cmds then Matched([-1], ExtractArgs(text, 0), FBool(true))
    else if text == "" then NoMatch
    else match ExtractCommand(text)
      case None => NoMatch
      case Some(e) =>
        if Lower(text[..e]) !in n.cmds then NoMatch
        else match n
          case Leaf(_, f, _) =>
            var r := flt(f, u);
            if Truthy(r) then Matched([], ExtractArgs(text, e), r) else Rejected
          case Router(_, _, _, default) =>
            var c := FirstChild(n, flt, SubUpdate(u, e), 0);
            if c.Matched? then c
            else if default.Some? then Check(default.value, flt, Update(u.text, Some(text)))
            else Rejected
  }

  /** The sub-handlers from index i on, tried in order: the first match, with its index pushed. */
  function FirstChild(n: Node, flt: (Filter, Update) -> FilterResult, u: Update, i: nat): (v: Verdict)
    requires n.Router? && i <= |n.children|
    ensures v.Matched? ==> Truthy(v.data)
    decreases n, 0, |n.children| - i
  {
    if i == |n.children| then NoMatch
    else
      var c := Check(n.children[i], flt, u);
      if c.Matched? then Matched(c.stack + [i], c.args, c.data)
      else FirstChild(n, flt, u, i + 1)
  }

  /** `check_update`, as the library runs it: a loop over the sub-handlers with an early return. */
  method CheckUpdate(n: Node, flt: (Filter, Update) -> FilterResult, u: Update) returns (v: Verdict)
    ensures v == Check(n, flt, u)
    decreases n
  {
    var text := MessageText(u);
    if "" in n.cmds {
      return Matched([-1], ExtractArgs(text, 0), FBool(true));
    }
    if text == "" {
      return NoMatch;
    }
    var m := ExtractCommand(text);
    if m.None? {
      return NoMatch;
    }
    var e := m.value;
    if Lower(text[..e]) !in n.cmds {
      return NoMatch;
    }
    if n.Router? {
      var sub := SubUpdate(u, e);
      var i := 0;
      while i < |n.children|
        invariant 0 <= i <= |n.children|
        invariant FirstChild(n, flt, sub, i) == FirstChild(n, flt, sub, 0)
      {
        var c := CheckUpdate(n.children[i], flt, sub);
        if c.Matched? {
          return Matched(c.stack + [i], c.args, c.data);
        }
        i := i + 1;
      }
      if n.default.Some? {
        v := CheckUpdate(n.default.value, flt, Update(u.text, Some(text)));
        return;
      }
      return Rejected;
    }
    var r := flt(n.filter, u);
    if Truthy(r) {
      return Matched([], ExtractArgs(text, e), r);
    }
    return Rejected;
  }

  /** The index of the first sub-handler, from i on, whose check matches. */
  function FirstMatchIndex(n: Node, flt: (Filter, Update) -> FilterResult, u: Update, i: nat): (r: Option<nat>)
    requires n.Router? && i <= |n.children|
    ensures r.Some? ==> i <= r.value < |n.children| && Check(n.children[r.value], flt, u).Matched?
    decreases |n.children| - i
  {
    if i == |n.children| then None
    else if Check(n.children[i], flt, u).Matched? then Some(i)
    else FirstMatchIndex(n, flt, u, i + 1)
  }

  /** No sub-handler before the first match matches, and `None` means none from i on does. */
  lemma {:induction false} FirstMatchIndexFacts(n: Node, flt: (Filter, Update) -> FilterResult, u: Update, i: nat)
    requires n.Router? && i <= |n.children|
    ensures var r := FirstMatchIndex(n, flt, u, i);
      && (r.Some? ==> forall k {:trigger Check(n.children[k], flt, u)} :: i <= k < r.value ==> !Check(n.children[k], flt, u).Matched?)
      && (r.None? ==> forall k {:trigger Check(n.children[k], flt, u)} :: i <= k < |n.children| ==> !Check(n.children[k], flt, u).Matched?)
    decreases |n.children| - i
  {
    if i < |n.children| && !Check(n.children[i], flt, u).Matched? {
      assert FirstMatchIndex(n, flt, u, i) == FirstMatchIndex(n, flt, u, i + 1);
      FirstMatchIndexFacts(n, flt, u, i + 1);
      var r := FirstMatchIndex(n, flt, u, i + 1);
      var end := if r.Some? then r.value else |n.children|;
      forall k | i <= k < end ensures !Check(n.children[k], flt, u).Matched? {
        if k == i {
          assert !Check(n.children[i], flt, u).Matched?;
        }
      }
    }
  }

  /** First match wins: the sub-handlers are tried in declared order, later ones after a match
      never count, and the verdict is the first matching one's with its index pushed on the stack. */
  lemma {:induction false} FirstChildIsFirstMatch(n: Node, flt: (Filter, Update) -> FilterResult, u: Update, i: nat)
    requires n.Router? && i <= |n.children|
    ensures match FirstMatchIndex(n, flt, u, i)
      case Some(j) =>
        var c := Check(n.children[j], flt, u);
        FirstChild(n, flt, u, i) == Matched(c.stack + [j], c.args, c.data)
      case None => FirstChild(n, flt, u, i) == NoMatch
    decreases |n.children| - i
  {
    if i < |n.children| && !Check(n.children[i], flt, u).Matched? {
      FirstChildIsFirstMatch(n, flt, u, i + 1);
    }
  }

  lemma {:induction false} FirstMatchIndexIs(n: Node, flt: (Filter, Update) -> FilterResult, u: Update, i: nat, j: nat)
    requires n.Router? && i <= j < |n.children| && Check(n.children[j], flt, u).Matched?
    requires forall k :: i <= k < j ==> !Check(n.children[k], flt, u).Matched?
    ensures FirstMatchIndex(n, flt, u, i) == Some(j)
    decreases j - i
  {
    if i < j {
      assert !Check(n.children[i], flt, u).Matched?;
      assert FirstMatchIndex(n, flt, u, i) == FirstMatchIndex(n, flt, u, i + 1);
      FirstMatchIndexIs(n, flt, u, i + 1, j);
    }
  }

  lemma {:induction false} FirstMatchIndexNone(n: Node, flt: (Filter, Update) -> FilterResult, u: Update, i: nat)
    requires n.Router? && i <= |n.children|
    requires forall k :: i <= k < |n.children| ==> !Check(n.children[k], flt, u).Matched?
    ensures FirstMatchIndex(n, flt, u, i) == None
    decreases |n.children| - i
  {
    if i < |n.children| {
      FirstMatchIndexNone(n, flt, u, i + 1);
    }
  }

  /** The first part of the scratch text ends at e and, lower-cased, is one of the commands. */
  predicate CommandMatches(n: Node, u: Update, e: nat) {
    var text := MessageText(u);
    ExtractCommand(text) == Some(e) && e <= |text| && Lower(text[..e]) in n.cmds
  }

  /** A handler listening for the empty command matches every text, the empty one included. */
  lemma EmptyCommandMatchesAll(n: Node, flt: (Filter, Update) -> FilterResult, u: Update)
    requires "" in n.cmds
    ensures Check(n, flt, u) == Matched([-1], Tokens(MessageText(u)), FBool(true))
  {
  }

  /** Otherwise there is no match exactly when the text is empty, starts with whitespace, or its
      first part is not one of the commands. */
  lemma NoMatchExactly(n: Node, flt: (Filter, Update) -> FilterResult, u: Update)
    requires Built(n, false) && "" !in n.cmds
    ensures var text := MessageText(u);
      Check(n, flt, u) == NoMatch <==>
        text == [] || IsSpace(text[0]) || Lower(text[..ExtractCommand(text).value]) !in n.cmds
  {
    var text := MessageText(u);
    if text != [] && !IsSpace(text[0]) {
      var e := ExtractCommand(text).value;
      if Lower(text[..e]) in n.cmds {
        assert CommandMatches(n, u, e);
        if n.Leaf? {
          LeafVerdict(n, flt, u, e);
        } else {
          RouterStep(n, flt, u, e);
          if !FirstChild(n, flt, SubUpdate(u, e), 0).Matched? && n.default.Some? {
            assert "" in n.default.value.cmds;
            EmptyCommandMatchesAll(n.default.value, flt, Update(u.text, Some(text)));
          }
        }
        assert Check(n, flt, u) != NoMatch;
      } else {
        assert Check(n, flt, u) == NoMatch;
      }
    }
  }

  /** A router whose command matches returns the first matching sub-handler's verdict, checked on
      the text after the command, with that sub-handler's index pushed on the stack. */
  lemma RouterFirstMatch(n: Node, flt: (Filter, Update) -> FilterResult, u: Update, e: nat, j: nat)
    requires n.Router? && "" !in n.cmds && CommandMatches(n, u, e)
    requires j < |n.children| && Check(n.children[j], flt, SubUpdate(u, e)).Matched?
    requires forall k :: 0 <= k < j ==> !Check(n.children[k], flt, SubUpdate(u, e)).Matched?
    ensures var c := Check(n.children[j], flt, SubUpdate(u, e));
      Check(n, flt, u) == Matched(c.stack + [j], c.args, c.data)
  {
    var sub := SubUpdate(u, e);
    var c := Check(n.children[j], flt, sub);
    RouterStep(n, flt, u, e);
    FirstMatchIndexIs(n, flt, sub, 0, j);
    FirstChildIsFirstMatch(n, flt, sub, 0);
    assert FirstChild(n, flt, sub, 0) == Matched(c.stack + [j], c.args, c.data);
  }

  /** A router whose command matches tries its sub-handlers on the text after the command, then
      its default on its own text. */
  lemma RouterStep(n: Node, flt: (Filter, Update) -> FilterResult, u: Update, e: nat)
    requires n.Router? && "" !in n.cmds && CommandMatches(n, u, e)
    ensures var c := FirstChild(n, flt, SubUpdate(u, e), 0);
      Check(n, flt, u) ==
        if c.Matched? then c
        else if n.default.Some? then Check(n.default.value, flt, Update(u.text, Some(MessageText(u))))
        else Rejected
  {
  }

  /** The same step for the decider. */
  lemma RouterDeciderStep(n: Node, flt: (Filter, Update) -> FilterResult, u: Update, e: nat)
    requires n.Router? && "" !in n.cmds && CommandMatches(n, u, e)
    ensures var f := FirstMatchIndex(n, flt, SubUpdate(u, e), 0);
      Decider(n, flt, u) ==
        if f.Some? then Decider(n.children[f.value], flt, SubUpdate(u, e))
        else if n.default.Some? then Decider(n.default.value, flt, Update(u.text, Some(MessageText(u))))
        else None
  {
  }

  /** A router whose command matches but whose sub-handlers all fail: without a default it rejects;
      with one, the default sees the router's own text, so its arguments start with the router's
      command part. */
  lemma RouterFallback(n: Node, flt: (Filter, Update) -> FilterResult, u: Update, e: nat)
    requires Built(n, false) && n.Router? && "" !in n.cmds && CommandMatches(n, u, e)
    requires forall k :: 0 <= k < |n.children| ==> !Check(n.children[k], flt, SubUpdate(u, e)).Matched?
    ensures n.default.None? ==> Check(n, flt, u) == Rejected
    ensures n.default.Some? ==>
      var text := MessageText(u);
      && Check(n, flt, u) == Matched([-1], Tokens(text), FBool(true))
      && |Tokens(text)| > 0 && Tokens(text)[0] == text[..e]
  {
    var text := MessageText(u);
    FirstChildIsFirstMatch(n, flt, SubUpdate(u, e), 0);
    FirstMatchIndexNone(n, flt, SubUpdate(u, e), 0);
    if n.default.Some? {
      var c := Lower(text[..e]);
      assert CommandOk(c, n.filter.Custom?, false);
      ValidCommandHasNoQuote(c);
      LowerKeepsQuotes(text[..e]);
      TokensAfterMatch(text, e);
    }
  }

  /** A leaf whose command matches calls its filter on the update: a truthy result gives the parts
      after the command and the filter's data, a falsy one rejects. */
  lemma LeafVerdict(n: Node, flt: (Filter, Update) -> FilterResult, u: Update, e: nat)
    requires n.Leaf? && "" !in n.cmds && CommandMatches(n, u, e)
    ensures var r := flt(n.filter, u);
      Check(n, flt, u) == if Truthy(r) then Matched([], ExtractArgs(MessageText(u), e), r) else Rejected
  {
  }

  /** Every character of a valid command is a slash or a command character. */
  lemma ValidCommandChars(c: string)
    requires ValidCommand(c)
    ensures forall i :: 0 <= i < |c| ==> c[i] == '/' || CommandChar(c[i])
  {
    if c[0] == '/' {
      var body := c[1..];
      forall i | 0 < i < |c| ensures CommandChar(c[i]) {
        assert c[i] == body[i - 1];
      }
    }
  }

  /** A command the library accepts holds no quote; apart from a final newline, no whitespace. */
  lemma ValidCommandHasNoQuote(c: string)
    requires ValidCommandAsWritten(c)
    ensures '"' !in c
  {
    if ValidCommand(c) {
      ValidCommandChars(c);
    } else {
      var d := c[..|c| - 1];
      ValidCommandChars(d);
      assert forall i :: 0 <= i < |d| ==> c[i] == d[i];
      assert c == d + [c[|c| - 1]];
    }
  }

  lemma LowerKeepsQuotes(s: string)
    ensures '"' in Lower(s) <==> '"' in s
  {
    assert forall i :: 0 <= i < |s| ==> (Lower(s)[i] == '"' <==> s[i] == '"');
  }

  // ---------------------------------------------------------------------------------------
  // Handling (`handle_update`, `collect_additional_context`)

  /** The callback's context: `context.args`, and the other attributes a data filter sets. */
  datatype Context = Context(args: Option<seq<string>>, data: map<string, seq<string>>)

  datatype HandleError =
    | NotAVerdict           // TypeError: indexing a check result that is not a tuple
    | PopFromEmpty          // IndexError: pop from an empty stack
    | IndexOutOfRange(index: int)
    | NoDefaultHandler      // AttributeError: the stack says "default" but there is none

  /** The leaf whose callback runs, with the context it runs with; or the error raised. */
  datatype Outcome = Invoked(leaf: Node, context: Context) | Failed(error: HandleError)

  /** `collect_additional_context`: a matched verdict sets the arguments, then sets every entry of
      a data filter's dictionary on the context, so an entry named `args` replaces the arguments;
      anything else leaves the context alone. */
  function CollectAdditionalContext(ctx: Context, v: Verdict): (c: Context)
    ensures !v.Matched? ==> c == ctx
    ensures v.Matched? ==>
      c.args == Some(if v.data.FData? && "args" in v.data.data then v.data.data["args"] else v.args)
    ensures v.Matched? ==> forall k :: k in c.data <==>
      k in ctx.data || (v.data.FData? && k in v.data.data && k != "args")
    ensures v.Matched? ==> forall k :: k in c.data ==>
      c.data[k] == if v.data.FData? && k in v.data.data && k != "args" then v.data.data[k] else ctx.data[k]
  {
    match v
    case Matched(_, args, data) =>
      if data.FData? then
        Context(Some(if "args" in data.data then data.data["args"] else args), ctx.data + (data.data - {"args"}))
      else Context(Some(args), ctx.data)
    case _ => ctx
  }

  /** `handle_update`: a router pops the last index of the stack and hands the rest on (`-1` to
      the default, other indices, Python's negative ones included, to that sub-handler); a leaf
      collects its context and calls back. */
  function Handle(n: Node, v: Verdict, ctx: Context): (o: Outcome)
    ensures n.Leaf? ==> o == Invoked(n, CollectAdditionalContext(ctx, v))
    ensures o.Invoked? ==> o.leaf.Leaf?
    ensures o.Invoked? && v.Matched? ==> o.context == CollectAdditionalContext(ctx, v)
    decreases n
  {
    match n
    case Leaf(_, _, _) => Invoked(n, CollectAdditionalContext(ctx, v))
    case Router(_, _, children, default) =>
      if !v.Matched? then Failed(NotAVerdict)
      else if v.stack == [] then Failed(PopFromEmpty)
      else
        var ind := v.stack[|v.stack| - 1];
        var rest := Matched(v.stack[..|v.stack| - 1], v.args, v.data);
        if ind != -1 then
          if 0 <= ind < |children| then Handle(children[ind], rest, ctx)
          else if -|children| <= ind < 0 then Handle(children[|children| + ind], rest, ctx)
          else Failed(IndexOutOfRange(ind))
        else if default.None? then Failed(NoDefaultHandler)
        else Handle(default.value, rest, ctx)
  }

  /** The index stack of a check result: a list the routers pop from in place while handling. */
  class IndexStack {
    var items: seq<int>

    constructor (items0: seq<int>)
      ensures items == items0
    {
      items := items0;
    }

    /** `list.pop()`: the last index, removed; `None` when the list is empty (IndexError). */
    method Pop() returns (r: Option<int>)
      modifies this
      ensures old(items) == [] ==> r == None && items == old(items)
      ensures old(items) != [] ==> r == Some(old(items)[|old(items)| - 1]) && items == old(items)[..|old(items)| - 1]
    {
      if items == [] {
        return None;
      }
      r := Some(items[|items| - 1]);
      items := items[..|items| - 1];
    }
  }

  /** What is left of stack s after handling reaches the leaf (or fails): one index popped per
      router passed through. */
  function Unwound(n: Node, s: seq<int>): (r: seq<int>)
    ensures |r| <= |s| && r == s[..|r|]
    ensures n.Leaf? ==> r == s
    decreases n
  {
    match n
    case Leaf(_, _, _) => s
    case Router(_, _, children, default) =>
      if s == [] then s
      else
        var ind := s[|s| - 1];
        var rest := s[..|s| - 1];
        var next :=
          if ind != -1 then
            if 0 <= ind < |children| then Some(children[ind])
            else if -|children| <= ind < 0 then Some(children[|children| + ind])
            else None
          else default;
        if next.None? then rest
        else
          var r := Unwound(next.value, rest);
          assert r == rest[..|r|] && rest == s[..|s| - 1];
          r
  }

  /** `handle_update` as the library runs it: each router pops the shared stack in place and
      hands on to the sub-handler or default it names; the result is the one `Handle` specifies
      and the stack is left as `Unwound` says. */
  method HandleUpdate(n: Node, v: Verdict, stack: IndexStack, ctx: Context) returns (o: Outcome)
    requires v.Matched? ==> stack.items == v.stack
    modifies stack
    ensures o == Handle(n, v, ctx)
    ensures v.Matched? ==> stack.items == Unwound(n, old(stack.items))
    ensures !v.Matched? ==> stack.items == old(stack.items)
    decreases n
  {
    if n.Leaf? {
      return Invoked(n, CollectAdditionalContext(ctx, v));
    }
    if !v.Matched? {
      return Failed(NotAVerdict);
    }
    var top := stack.Pop();
    if top.None? {
      return Failed(PopFromEmpty);
    }
    var ind := top.value;
    var rest := Matched(stack.items, v.args, v.data);
    if ind != -1 {
      if 0 <= ind < |n.children| {
        o := HandleUpdate(n.children[ind], rest, stack, ctx);
      } else if -|n.children| <= ind < 0 {
        o := HandleUpdate(n.children[|n.children| + ind], rest, stack, ctx);
      } else {
        o := Failed(IndexOutOfRange(ind));
      }
    } else if n.default.None? {
      o := Failed(NoDefaultHandler);
    } else {
      o := HandleUpdate(n.default.value, rest, stack, ctx);
    }
  }

  /** The leaf that decided a match, and the update it was checked with: the handler itself when it
      listens for the empty command or is a leaf, else the first matching sub-handler's decider,
      else the default's. */
  function Decider(n: Node, flt: (Filter, Update) -> FilterResult, u: Update): Option<(Node, Update)>
    decreases n
  {
    var text := MessageText(u);
    if "" in n.cmds then Some((n, u))
    else if text == "" then None
    else match ExtractCommand(text)
      case None => None
      case Some(e) =>
        if Lower(text[..e]) !in n.cmds then None
        else match n
          case Leaf(_, f, _) => if Truthy(flt(f, u)) then Some((n, u)) else None
          case Router(_, _, _, default) =>
            match FirstMatchIndex(n, flt, SubUpdate(u, e), 0)
            case Some(j) => Decider(n.children[j], flt, SubUpdate(u, e))
            case None =>
              if default.Some? then Decider(default.value, flt, Update(u.text, Some(text))) else None
  }

  /** One router step of a match through sub-handler j: check and decider both go down to it. */
  lemma RouterChildStep(n: Node, flt: (Filter, Update) -> FilterResult, u: Update, e: nat, j: nat)
    requires n.Router? && "" !in n.cmds && CommandMatches(n, u, e)
    requires FirstMatchIndex(n, flt, SubUpdate(u, e), 0) == Some(j)
    ensures var c := Check(n.children[j], flt, SubUpdate(u, e));
      && Check(n, flt, u) == Matched(c.stack + [j], c.args, c.data)
      && Decider(n, flt, u) == Decider(n.children[j], flt, SubUpdate(u, e))
  {
    var sub := SubUpdate(u, e);
    var c := Check(n.children[j], flt, sub);
    RouterStep(n, flt, u, e);
    RouterDeciderStep(n, flt, u, e);
    FirstChildIsFirstMatch(n, flt, sub, 0);
    assert FirstChild(n, flt, sub, 0) == Matched(c.stack + [j], c.args, c.data);
  }

  /** One router step of a match through the default handler. */
  lemma RouterDefaultStep(n: Node, flt: (Filter, Update) -> FilterResult, u: Update, e: nat)
    requires n.Router? && "" !in n.cmds && CommandMatches(n, u, e) && n.default.Some?
    requires FirstMatchIndex(n, flt, SubUpdate(u, e), 0) == None
    ensures var w := Update(u.text, Some(MessageText(u)));
      && Check(n, flt, u) == Check(n.default.value, flt, w)
      && Decider(n, flt, u) == Decider(n.default.value, flt, w)
  {
    RouterStep(n, flt, u, e);
    RouterDeciderStep(n, flt, u, e);
    FirstChildIsFirstMatch(n, flt, SubUpdate(u, e), 0);
    assert FirstChild(n, flt, SubUpdate(u, e), 0) == NoMatch;
  }

  /** Handling pops the last index: sub-handler j, or the default for -1. */
  lemma HandlePop(n: Node, stack: seq<int>, ind: int, args: seq<string>, data: FilterResult, ctx: Context)
    requires n.Router? && (0 <= ind < |n.children| || (ind == -1 && n.default.Some?))
    ensures var next := if ind == -1 then n.default.value else n.children[ind];
      Handle(n, Matched(stack + [ind], args, data), ctx) == Handle(next, Matched(stack, args, data), ctx)
  {
    assert (stack + [ind])[..|stack|] == stack;
  }

  /** What handling a matched verdict of n does: it runs the leaf that decided the match, with
      the verdict's arguments and filter data. */
  predicate HandlesDecider(n: Node, flt: (Filter, Update) -> FilterResult, u: Update, ctx: Context) {
    match Decider(n, flt, u)
    case None => false
    case Some(d) =>
      var v := Check(n, flt, u);
      var lv := Check(d.0, flt, d.1);
      && d.0.Leaf?
      && v.Matched? && lv.Matched? && lv.args == v.args && lv.data == v.data
      && Handle(n, v, ctx) == Invoked(d.0, CollectAdditionalContext(ctx, v))
  }

  lemma ChildHandlesDecider(n: Node, flt: (Filter, Update) -> FilterResult, u: Update, ctx: Context, e: nat, j: nat)
    requires n.Router? && "" !in n.cmds && CommandMatches(n, u, e)
    requires FirstMatchIndex(n, flt, SubUpdate(u, e), 0) == Some(j)
    requires HandlesDecider(n.children[j], flt, SubUpdate(u, e), ctx)
    ensures HandlesDecider(n, flt, u, ctx)
  {
    RouterChildStep(n, flt, u, e, j);
    var c := Check(n.children[j], flt, SubUpdate(u, e));
    HandlePop(n, c.stack, j, c.args, c.data, ctx);
  }

  lemma DefaultHandlesDecider(n: Node, flt: (Filter, Update) -> FilterResult, u: Update, ctx: Context, e: nat)
    requires n.Router? && "" !in n.cmds && CommandMatches(n, u, e)
    requires n.default.Some? && n.default.value.Leaf? && n.default.value == DefaultHandler(n.default.value.callback)
    requires FirstMatchIndex(n, flt, SubUpdate(u, e), 0) == None
    ensures HandlesDecider(n, flt, u, ctx)
  {
    RouterDefaultStep(n, flt, u, e);
    var text := MessageText(u);
    var w := Update(u.text, Some(text));
    var d := n.default.value;
    assert "" in d.cmds;
    assert Decider(d, flt, w) == Some((d, w));
    EmptyCommandMatchesAll(d, flt, w);
    assert MessageText(w) == text;
    var v := Matched([-1], Tokens(text), FBool(true));
    assert Check(n, flt, u) == v && Decider(n, flt, u) == Some((d, w));
    assert [] + [-1] == [-1];
    HandlePop(n, [], -1, Tokens(text), FBool(true), ctx);
    assert Handle(n, v, ctx) == Invoked(d, CollectAdditionalContext(ctx, Matched([], Tokens(text), FBool(true))));
    CollectIgnoresStack(ctx, [], [-1], Tokens(text), FBool(true));
  }

  /** The context collected from a match does not depend on its stack. */
  lemma CollectIgnoresStack(ctx: Context, s1: seq<int>, s2: seq<int>, args: seq<string>, data: FilterResult)
    ensures CollectAdditionalContext(ctx, Matched(s1, args, data)) == CollectAdditionalContext(ctx, Matched(s2, args, data))
  {
  }

  /** A handler that takes the message itself (a leaf, or one with the empty command) decides
      for itself. */
  lemma BuiltBaseHandlesDecider(n: Node, flt: (Filter, Update) -> FilterResult, u: Update, ctx: Context)
    requires Built(n, false) && NoEmptyRouter(n) && ("" in n.cmds || n.Leaf?)
    requires Check(n, flt, u).Matched?
    ensures HandlesDecider(n, flt, u, ctx)
  {
  }

  /** Handling a verdict of `check_update` follows the stack back down the tree to exactly the
      leaf that produced it, which runs with the context collected from the verdict; it holds
      for every handler the library builds in which no router listens for the empty command,
      so for every handler the corrected constructor builds (`CorrectedIsBuilt`). */
  lemma {:induction false} CheckThenHandle(n: Node, flt: (Filter, Update) -> FilterResult, u: Update, ctx: Context)
    requires Built(n, false) && NoEmptyRouter(n)
    requires Check(n, flt, u).Matched?
    ensures HandlesDecider(n, flt, u, ctx)
    decreases n
  {
    if "" in n.cmds || n.Leaf? {
      BuiltBaseHandlesDecider(n, flt, u, ctx);
      return;
    }
    var text := MessageText(u);
    var e := ExtractCommand(text).value;
    var sub := SubUpdate(u, e);
    FirstChildIsFirstMatch(n, flt, sub, 0);
    match FirstMatchIndex(n, flt, sub, 0)
    case Some(j) =>
      CheckThenHandle(n.children[j], flt, sub, ctx);
      ChildHandlesDecider(n, flt, u, ctx, e, j);
    case None =>
      DefaultHandlesDecider(n, flt, u, ctx, e);
  }

  // ---------------------------------------------------------------------------------------
  // What the library's constructor lets through

  /** The library accepts the empty command on a handler with sub-handlers; its check then
      matches any text with the stack `[-1]`, and handling that verdict raises, because the
      handler has no default. */
  lemma EmptyRouterHandleFails(flt: (Filter, Update) -> FilterResult, u: Update, ctx: Context, child: Node)
    requires Built(child, false)
    ensures var n := Router({""}, TextFilter, [child], None);
      && Build([""], None, Some([child]), None, None, false) == Ok(n)
      && Built(n, false)
      && Check(n, flt, u).Matched?
      && Handle(n, Check(n, flt, u), ctx) == Failed(NoDefaultHandler)
  {
    assert LowerAll([""]) == [""];
    assert (set c | c in [""]) == {""};
  }

  lemma SlashCommandWithBadChar(s: string, i: nat)
    requires s != [] && s[0] == '/' && 1 <= i < |s| && !CommandChar(s[i])
    ensures !ValidCommand(s)
  {
    var body := s[1..];
    assert body[i - 1] == s[i];
  }

  /** The library accepts a command that ends in a newline. */
  lemma NewlineCommandAccepted(callback: CallbackId)
    ensures ValidCommandAsWritten("/a\n") && !ValidCommand("/a\n")
    ensures Build(["/a\n"], Some(callback), None, None, None, false) == Ok(Leaf({"/a\n"}, TextFilter, callback))
  {
    var s := "/a\n";
    assert s[..2] == "/a" && "/a"[1..] == "a";
    assert CommandChar("a"[0]);
    assert ValidCommand("/a");
    assert ValidCommandAsWritten(s);
    assert s[0] == '/' && s[1..] == "a\n" && !CommandChar(s[1..][1]);
    SlashCommandWithBadChar(s, 2);
    assert CommandError([s], false, false) == None;
    assert Lower(s) == s;
    assert LowerAll([s]) == [s];
    assert (set c | c in [s]) == {s};
  }

  /** A handler whose commands all end in a newline never matches anything. */
  lemma NewlineCommandNeverMatches(n: Node, flt: (Filter, Update) -> FilterResult, u: Update)
    requires forall c :: c in n.cmds ==> c != [] && c[|c| - 1] == '\n'
    ensures Check(n, flt, u) == NoMatch
  {
    var text := MessageText(u);
    assert "" !in n.cmds;
    if text != [] && !IsSpace(text[0]) {
      var e := ExtractCommand(text).value;
      var lw := Lower(text[..e]);
      assert lw[e - 1] == LowerChar(text[e - 1]) && !IsSpace(text[e - 1]);
      assert |lw| == e && lw[|lw| - 1] != '\n';
      assert lw !in n.cmds;
    }
  }

  /** A handler that satisfies the corrected invariant satisfies the library's, and none of its
      routers listens for the empty command. */
  lemma {:induction false} CorrectedIsBuilt(n: Node)
    requires Built(n, true)
    ensures Built(n, false) && NoEmptyRouter(n)
    decreases n
  {
    if n.Router? {
      forall i | 0 <= i < |n.children| ensures Built(n.children[i], false) && NoEmptyRouter(n.children[i]) {
        CorrectedIsBuilt(n.children[i]);
      }
    }
  }

  /** With the corrected constructor every command is reachable: the text made of just that
      command is matched or, at a leaf whose filter refuses it, rejected. */
  lemma ValidCommandReachable(n: Node, flt: (Filter, Update) -> FilterResult, c: string)
    requires Built(n, true) && c in n.cmds && c != ""
    ensures Check(n, flt, Update(c, None)) != NoMatch
  {
    if "" !in n.cmds {
      assert ValidCommand(c);
      ValidCommandChars(c);
      assert '"' !in c;
      assert forall i :: 0 <= i < |c| ==> !IsSpace(c[i]) && LowerChar(c[i]) == c[i];
      WordMatchEnd(c, "");
      assert c + "" == c;
      assert c[..|c|] == c;
      assert Lower(c) == c;
      CorrectedIsBuilt(n);
      NoMatchExactly(n, flt, Update(c, None));
    }
  }
}
