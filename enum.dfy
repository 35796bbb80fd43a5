/** The rule enumerator (enum.go): a builder that fills a filter-enumeration
    template by value copies, and Execute, which pages through the matching
    rules through an enumeration handle that it always destroys. */
module Enum {
  import opened Types
  import opened Wrappers

  /** fwpmProviderContextEnumTemplate0 as WithProviderContext fills it; a nil
      ProviderKey pointer is None. */
  datatype ProviderContextTemplate =
    ProviderContextTemplate(providerKey: Option<ProviderID>, providerContextType: bv32)

  /** The fields of fwpmFilterEnumTemplate0 that the builder sets; a nil
      pointer is None. The Go zero value is ZeroTemplate. */
  datatype FilterEnumTemplate = FilterEnumTemplate(
    providerKey: Option<ProviderID>,
    layerKey: LayerID,
    enumType: FilterEnumType,
    flags: FilterEnumFlags,
    providerContextTemplate: Option<ProviderContextTemplate>,
    actionMask: ActionFlag,
    calloutKey: Option<CalloutID>)

  const ZeroTemplate := FilterEnumTemplate(None, 0, 0, 0, None, 0, None)

  /** Names of the template fields, to state which ones an update touches. */
  datatype TemplateField =
    | ProviderKeyField
    | LayerKeyField
    | EnumTypeField
    | FlagsField
    | ProviderContextField
    | ActionMaskField
    | CalloutKeyField

  /** Templates a and b hold the same value in field f. */
  predicate Agree(a: FilterEnumTemplate, b: FilterEnumTemplate, f: TemplateField)
  {
    match f
    case ProviderKeyField => a.providerKey == b.providerKey
    case LayerKeyField => a.layerKey == b.layerKey
    case EnumTypeField => a.enumType == b.enumType
    case FlagsField => a.flags == b.flags
    case ProviderContextField => a.providerContextTemplate == b.providerContextTemplate
    case ActionMaskField => a.actionMask == b.actionMask
    case CalloutKeyField => a.calloutKey == b.calloutKey
  }

  /** b differs from a at most in field f. */
  predicate OnlyChanged(a: FilterEnumTemplate, b: FilterEnumTemplate, f: TemplateField)
  {
    forall g :: g != f ==> Agree(a, b, g)
  }

  /** A rule as returned by the engine. Converting rule descriptors is done
      by getRulePage, which is not part of this model; a rule is carried as
      its identifier. */
  datatype Rule = Rule(id: RuleID)

  /** What one page request returns: some rules, or an error. */
  datatype Page = Page(rules: seq<Rule>) | PageError(err: Errno)

  /** A handle-creation request: the session handle and the template. */
  datatype CreateCall = CreateCall(session: nat, template: FilterEnumTemplate)

  /** A page request or a destroy request: the session handle and the
      enumeration handle. */
  datatype HandleCall = HandleCall(session: nat, handle: nat)

  /** The filtering engine as seen through the binding's enumeration calls,
      as an oracle. `createError` decides the next handle creation; `script`
      holds the pages the next enumeration will return, after which the
      cursor is exhausted and returns empty pages. The logs record every
      request made of it, with its arguments, in order. */
  class Engine {
    var createError: Option<Errno>
    var script: seq<Page>
    var open: set<nat>
    var nextHandle: nat
    var creates: seq<CreateCall>
    var fetches: seq<HandleCall>
    var destroyed: seq<HandleCall>

    /** Handles handed out are below nextHandle. */
    ghost predicate Valid()
      reads this
    {
      forall h :: h in open ==> h < nextHandle
    }

    constructor (createError: Option<Errno>, script: seq<Page>)
      ensures Valid()
      ensures this.createError == createError && this.script == script
      ensures open == {} && creates == [] && fetches == [] && destroyed == []
    {
      this.createError := createError;
      this.script := script;
      open, nextHandle := {}, 0;
      creates, fetches, destroyed := [], [], [];
    }

    /** fwpmFilterCreateEnumHandle0. */
    method CreateEnumHandle(session: nat, template: FilterEnumTemplate) returns (h: nat, err: Option<Errno>)
      requires Valid()
      modifies this`open, this`nextHandle, this`creates
      ensures Valid()
      ensures creates == old(creates) + [CreateCall(session, template)]
      ensures err == createError
      ensures err.None? ==> h !in old(open) && open == old(open) + {h}
      ensures err.Some? ==> open == old(open)
    {
      creates := creates + [CreateCall(session, template)];
      err := createError;
      h := nextHandle;
      if err.None? {
        open := open + {h};
        nextHandle := nextHandle + 1;
      }
    }

    /** session.getRulePage: the next page of the open enumeration. */
    method GetRulePage(session: nat, h: nat) returns (rules: seq<Rule>, err: Option<Errno>)
      requires h in open
      modifies this`script, this`fetches
      ensures fetches == old(fetches) + [HandleCall(session, h)]
      ensures old(script) == [] ==> rules == [] && err == None && script == []
      ensures old(script) != [] ==> script == old(script)[1..]
      ensures old(script) != [] && old(script)[0].Page? ==> rules == old(script)[0].rules && err == None
      ensures old(script) != [] && old(script)[0].PageError? ==> err == Some(old(script)[0].err)
    {
      fetches := fetches + [HandleCall(session, h)];
      if script == [] {
        rules, err := [], None;
      } else {
        match script[0] {
          case Page(rs) => rules, err := rs, None;
          case PageError(e) => rules, err := [], Some(e);
        }
        script := script[1..];
      }
    }

    /** fwpmFilterDestroyEnumHandle0. */
    method DestroyEnumHandle(session: nat, h: nat)
      requires h in open
      modifies this`open, this`destroyed
      ensures open == old(open) - {h}
      ensures destroyed == old(destroyed) + [HandleCall(session, h)]
    {
      open := open - {h};
      destroyed := destroyed + [HandleCall(session, h)];
    }
  }

  /** The session as the enumerator uses it: its engine handle and the
      engine behind it. Opening, closing and transactions are not part of
      this model. */
  class Session {
    const handle: nat
    const engine: Engine

    constructor (handle: nat, engine: Engine)
      ensures this.handle == handle && this.engine == engine
    {
      this.handle := handle;
      this.engine := engine;
    }

    /** Session.EnumerateRules: a builder bound to this session whose
        template has only the enumeration type and the layer set. */
    function EnumerateRules(typ: FilterEnumType, layer: LayerID): (e: RuleEnumerator)
      ensures e.session == this
      ensures e.template.enumType == typ && e.template.layerKey == layer
      ensures forall g :: g != EnumTypeField && g != LayerKeyField ==> Agree(e.template, ZeroTemplate, g)
    {
      RuleEnumerator(this, ZeroTemplate.(enumType := typ, layerKey := layer))
    }
  }

  // ---------------------------------------------------------------------
  // What Execute computes from the pages the engine returns.

  /** The result of paging through `pages`: the rules of the pages before the
      first empty one, or the first error met before it. An exhausted cursor
      returns an empty page. */
  function Outcome(pages: seq<Page>): (r: Result<seq<Rule>, Errno>)
    ensures r.Err? ==> PageError(r.error) in pages
  {
    if pages == [] then Ok([])
    else match pages[0]
      case PageError(err) => Err(err)
      case Page(rules) =>
        if rules == [] then Ok([])
        else match Outcome(pages[1..])
          case Ok(rest) => Ok(rules + rest)
          case Err(err) => Err(err)
  }

  /** How many page requests that paging makes. */
  function Fetches(pages: seq<Page>): (r: nat)
    ensures 1 <= r <= |pages| + 1
  {
    if pages == [] then 1
    else match pages[0]
      case PageError(_) => 1
      case Page(rules) => if rules == [] then 1 else 1 + Fetches(pages[1..])
  }

  /** The pages left unread after that paging. */
  function Unread(pages: seq<Page>): seq<Page>
  {
    if pages == [] then []
    else match pages[0]
      case PageError(_) => pages[1..]
      case Page(rules) => if rules == [] then pages[1..] else Unread(pages[1..])
  }

  /** The rules of the pages, in page order. */
  function Flatten(pages: seq<Page>): seq<Rule>
  {
    if pages == [] then []
    else
      var last := match pages[|pages| - 1]
        case Page(rules) => rules
        case PageError(_) => [];
      Flatten(pages[..|pages| - 1]) + last
  }

  /** Every page before index k holds at least one rule. */
  predicate FullPages(pages: seq<Page>, k: nat)
    requires k <= |pages|
  {
    forall i :: 0 <= i < k ==> pages[i].Page? && pages[i].rules != []
  }

  /** Paging stops at the first empty page (or at the end of the cursor) and
      returns every rule before it, in order. */
  lemma {:induction false} OutcomeAtEmptyPage(pages: seq<Page>, k: nat)
    requires k <= |pages| && FullPages(pages, k)
    requires k == |pages| || pages[k] == Page([])
    ensures Outcome(pages) == Ok(Flatten(pages[..k]))
    ensures Fetches(pages) == k + 1
  {
    if k == 0 {
      assert pages[..0] == [];
    } else {
      assert FullPages(pages[1..], k - 1);
      OutcomeAtEmptyPage(pages[1..], k - 1);
      FlattenCons(pages[..k]);
      assert pages[..k][1..] == pages[1..][..k - 1];
    }
  }

  /** A page error before the first empty page discards the rules gathered so
      far: the result is that error alone. */
  lemma {:induction false} OutcomeAtError(pages: seq<Page>, k: nat, err: Errno)
    requires k < |pages| && FullPages(pages, k)
    requires pages[k] == PageError(err)
    ensures Outcome(pages) == Err(err)
    ensures Fetches(pages) == k + 1
  {
    if k > 0 {
      assert FullPages(pages[1..], k - 1);
      OutcomeAtError(pages[1..], k - 1, err);
    }
  }

  /** Flatten read from the front: the first page's rules come first. */
  lemma {:induction false} FlattenCons(pages: seq<Page>)
    requires pages != [] && pages[0].Page?
    ensures Flatten(pages) == pages[0].rules + Flatten(pages[1..])
    decreases |pages|
  {
    if |pages| > 1 {
      var init := pages[..|pages| - 1];
      FlattenCons(init);
      assert init[1..] == pages[1..][..|pages[1..]| - 1];
    } else {
      assert pages[..0] == [];
      assert pages[1..] == [];
    }
  }

  /** An enumeration whose first page is empty succeeds with no rules. */
  lemma EmptyFirstPage(pages: seq<Page>)
    requires pages == [] || pages[0] == Page([])
    ensures Outcome(pages) == Ok([]) && Fetches(pages) == 1
  {
    OutcomeAtEmptyPage(pages, 0);
  }

  /** The rules gathered so far followed by what the rest of the paging gives. */
  function Prepend(done: seq<Rule>, rest: Result<seq<Rule>, Errno>): Result<seq<Rule>, Errno>
  {
    match rest
    case Ok(rules) => Ok(done + rules)
    case Err(err) => Err(err)
  }

  /** The builder: a session and the template its With* methods fill. Each
      method takes the enumerator by value and returns a changed copy. */
  datatype RuleEnumerator = RuleEnumerator(session: Session, template: FilterEnumTemplate)
  {
    function WithProvider(provider: ProviderID): (r: RuleEnumerator)
      ensures r.session == session
      ensures r.template.providerKey == Some(provider)
      ensures OnlyChanged(template, r.template, ProviderKeyField)
    {
      this.(template := template.(providerKey := Some(provider)))
    }

    function WithLayer(layer: LayerID): (r: RuleEnumerator)
      ensures r.session == session
      ensures r.template.layerKey == layer
      ensures OnlyChanged(template, r.template, LayerKeyField)
    {
      this.(template := template.(layerKey := layer))
    }

    function WithType(typ: FilterEnumType): (r: RuleEnumerator)
      ensures r.session == session
      ensures r.template.enumType == typ
      ensures OnlyChanged(template, r.template, EnumTypeField)
    {
      this.(template := template.(enumType := typ))
    }

    function WithFlags(flags: FilterEnumFlags): (r: RuleEnumerator)
      ensures r.session == session
      ensures r.template.flags == flags
      ensures OnlyChanged(template, r.template, FlagsField)
    {
      this.(template := template.(flags := flags))
    }

    /** Installs a new provider-context template for `provider` and
        `contextType`. */
    function WithProviderContext(provider: ProviderID, contextType: bv32): (r: RuleEnumerator)
      ensures r.session == session
      ensures r.template.providerContextTemplate.Some?
      ensures r.template.providerContextTemplate.value.providerKey == Some(provider)
      ensures r.template.providerContextTemplate.value.providerContextType == contextType
      ensures OnlyChanged(template, r.template, ProviderContextField)
    {
      this.(template := template.(providerContextTemplate :=
        Some(ProviderContextTemplate(Some(provider), contextType))))
    }

    function WithActionMask(mask: ActionFlag): (r: RuleEnumerator)
      ensures r.session == session
      ensures r.template.actionMask == mask
      ensures OnlyChanged(template, r.template, ActionMaskField)
    {
      this.(template := template.(actionMask := mask))
    }

    function WithCalloutKey(key: CalloutID): (r: RuleEnumerator)
      ensures r.session == session
      ensures r.template.calloutKey == Some(key)
      ensures OnlyChanged(template, r.template, CalloutKeyField)
    {
      this.(template := template.(calloutKey := Some(key)))
    }

    /** Execute: open an enumeration handle for this session and template;
        if that fails, return its error. Otherwise fetch pages through that
        handle until one is empty, gathering their rules, and return them; a
        page error discards them and is returned instead. The handle is
        destroyed exactly once on every path after it was opened. */
    method Execute() returns (r: Result<seq<Rule>, Errno>)
      requires session.engine.Valid()
      modifies session.engine
      ensures session.engine.Valid()
      ensures session.engine.createError == old(session.engine.createError)
      ensures session.engine.open == old(session.engine.open)
      ensures session.engine.creates == old(session.engine.creates) + [CreateCall(session.handle, template)]
      ensures old(session.engine.createError).Some? ==>
        r == Err(old(session.engine.createError).value) &&
        session.engine.script == old(session.engine.script) &&
        session.engine.fetches == old(session.engine.fetches) &&
        session.engine.destroyed == old(session.engine.destroyed)
      ensures old(session.engine.createError).None? ==>
        r == Outcome(old(session.engine.script)) &&
        session.engine.script == Unread(old(session.engine.script)) &&
        |session.engine.destroyed| == |old(session.engine.destroyed)| + 1 &&
        session.engine.destroyed[..|old(session.engine.destroyed)|] == old(session.engine.destroyed) &&
        session.engine.destroyed[|old(session.engine.destroyed)|].session == session.handle &&
        session.engine.destroyed[|old(session.engine.destroyed)|].handle !in old(session.engine.open) &&
        |session.engine.fetches| == |old(session.engine.fetches)| + Fetches(old(session.engine.script)) &&
        session.engine.fetches[..|old(session.engine.fetches)|] == old(session.engine.fetches) &&
        forall i :: |old(session.engine.fetches)| <= i < |session.engine.fetches| ==>
          session.engine.fetches[i] == session.engine.destroyed[|old(session.engine.destroyed)|]
    {
      var engine := session.engine;
      var h, err := engine.CreateEnumHandle(session.handle, template);
      if err.Some? {
        return Err(err.value);
      }
      ghost var pages := engine.script;
      ghost var fetches0 := engine.fetches;
      var ret: seq<Rule> := [];
      assert Prepend(ret, Outcome(pages)) == Outcome(pages) by {
        if Outcome(pages).Ok? { assert [] + Outcome(pages).value == Outcome(pages).value; }
      }
      while true
        invariant h in engine.open && engine.open == old(engine.open) + {h}
        invariant engine.Valid() && engine.destroyed == old(engine.destroyed)
        invariant engine.createError == old(engine.createError)
        invariant engine.creates == old(engine.creates) + [CreateCall(session.handle, template)]
        invariant Outcome(pages) == Prepend(ret, Outcome(engine.script))
        invariant Unread(pages) == Unread(engine.script)
        invariant |fetches0| + Fetches(pages) == |engine.fetches| + Fetches(engine.script)
        invariant |fetches0| <= |engine.fetches| && engine.fetches[..|fetches0|] == fetches0
        invariant forall i :: |fetches0| <= i < |engine.fetches| ==> engine.fetches[i] == HandleCall(session.handle, h)
        decreases |engine.script|
      {
        var rules, pageErr := engine.GetRulePage(session.handle, h);
        assert engine.fetches[..|fetches0|] == fetches0;
        if pageErr.Some? {
          r := Err(pageErr.value);
          break;
        }
        if |rules| == 0 {
          assert ret + [] == ret;
          r := Ok(ret);
          break;
        }
        match Outcome(engine.script) {
          case Ok(rest) => assert ret + (rules + rest) == (ret + rules) + rest;
          case Err(_) =>
        }
        ret := ret + rules;
      }
      engine.DestroyEnumHandle(session.handle, h);
    }
  }

  // ---------------------------------------------------------------------
  // Builder laws.

  /** One call of a With* method, with its arguments. */
  datatype Setting =
    | SetProvider(provider: ProviderID)
    | SetLayer(layer: LayerID)
    | SetType(typ: FilterEnumType)
    | SetFlags(flags: FilterEnumFlags)
    | SetProviderContext(contextProvider: ProviderID, contextType: bv32)
    | SetActionMask(mask: ActionFlag)
    | SetCalloutKey(key: CalloutID)

  /** The template field a setting writes. */
  function Field(s: Setting): TemplateField
  {
    match s
    case SetProvider(_) => ProviderKeyField
    case SetLayer(_) => LayerKeyField
    case SetType(_) => EnumTypeField
    case SetFlags(_) => FlagsField
    case SetProviderContext(_, _) => ProviderContextField
    case SetActionMask(_) => ActionMaskField
    case SetCalloutKey(_) => CalloutKeyField
  }

  /** Calling the With* method that s names on e. */
  function Apply(e: RuleEnumerator, s: Setting): (r: RuleEnumerator)
    ensures r.session == e.session
    ensures OnlyChanged(e.template, r.template, Field(s))
  {
    match s
    case SetProvider(p) => e.WithProvider(p)
    case SetLayer(l) => e.WithLayer(l)
    case SetType(t) => e.WithType(t)
    case SetFlags(f) => e.WithFlags(f)
    case SetProviderContext(p, c) => e.WithProviderContext(p, c)
    case SetActionMask(m) => e.WithActionMask(m)
    case SetCalloutKey(k) => e.WithCalloutKey(k)
  }

  /** Setting the same field twice keeps the last value, for every one of
      the seven setters and any two arguments. */
  lemma LastCallWins(e: RuleEnumerator, s: Setting, t: Setting)
    requires Field(s) == Field(t)
    ensures Apply(Apply(e, s), t) == Apply(e, t)
  {
  }

  /** Setting two different fields gives the same enumerator in either
      order, for every pair of setters and any arguments. */
  lemma DistinctFieldsCommute(e: RuleEnumerator, s: Setting, t: Setting)
    requires Field(s) != Field(t)
    ensures Apply(Apply(e, s), t) == Apply(Apply(e, t), s)
  {
  }

  /** Filtering a layer for one provider's rules, as a client does: the
      template carries the four settings and nothing else, the engine is
      asked once for a handle with exactly that template, both page requests
      and the destroy use that handle, and an engine whose single page holds
      one rule yields exactly that rule. */
  method FilterByProvider(typ: FilterEnumType, layer: LayerID, provider: ProviderID, mask: ActionFlag,
                          flags: FilterEnumFlags, id: RuleID)
    returns (template: FilterEnumTemplate, r: Result<seq<Rule>, Errno>,
             asked: seq<CreateCall>, fetches: seq<HandleCall>, destroyed: seq<HandleCall>, leftOpen: set<nat>)
    ensures template == FilterEnumTemplate(Some(provider), layer, typ, flags, None, mask, None)
    ensures asked == [CreateCall(0, template)]
    ensures r == Ok([Rule(id)])
    ensures |destroyed| == 1 && destroyed[0].session == 0
    ensures fetches == [destroyed[0], destroyed[0]]
    ensures leftOpen == {}
  {
    var engine := new Engine(None, [Page([Rule(id)])]);
    var session := new Session(0, engine);
    var e := session.EnumerateRules(typ, layer).WithProvider(provider).WithActionMask(mask).WithFlags(flags);
    template := e.template;
    OutcomeAtEmptyPage(engine.script, 1);
    assert engine.script[..1] == [Page([Rule(id)])];
    assert Flatten(engine.script[..1]) == [Rule(id)] by {
      assert engine.script[..1][..0] == [];
    }
    r := e.Execute();
    asked, fetches, destroyed, leftOpen := engine.creates, engine.fetches, engine.destroyed, engine.open;
  }
}
