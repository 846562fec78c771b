/**
 * The order of the passes in `run` (helper.py:298-312), after the knowledge
 * base is loaded in the constructor: the entry point's prototype, the GUID
 * scan, the global resolver, the host's re-analysis, then the protocol
 * resolver.
 */
module Pipeline {
  import opened Wrappers
  import opened Ir
  import KnowledgeBase
  import Scanner
  import GlobalResolver
  import ProtocolResolver

  /**
   * What a run asks the host to record, pass by pass, the BootServices
   * globals handed from the second pass to the last, and the exception that
   * ended the run early, if any. Annotations of passes before an exception
   * stay recorded.
   */
  datatype Report = Report(
    guids: seq<Annotation>,
    globals: seq<Annotation>,
    bootServices: seq<int>,
    protocols: seq<Annotation>,
    failure: Option<Failure>)

  /** Every address on the BootServices list carries a `gBS` global annotation. */
  predicate BootServicesNamedIn(r: Report) {
    forall a | a in r.bootServices :: exists k | 0 <= k < |r.globals| ::
      r.globals[k].address == a && r.globals[k].symbol == "gBS"
  }

  /**
   * What `update_analysis_and_wait` can change: the functions and the code
   * references. The bytes, segments, entry point and view type of the image
   * stay as they are.
   */
  datatype Analysis = Analysis(functions: seq<Function>, codeRefs: map<int, seq<int>>)

  /** The host after a re-analysis. */
  function Reanalysed(h: Host, a: Analysis): Host {
    h.(functions := a.functions, codeRefs := a.codeRefs)
  }

  /** A function starts at the entry point and has at least the two parameters the prototype names. */
  predicate HasEntryParameters(fs: seq<Function>, entry: int) {
    FunctionStartsAt(fs, entry) && fs[FunctionAt(fs, entry).value].arity >= 2
  }

  /**
   * `_set_entry_point_prototype` (helper.py:61-69). In a TE image nothing
   * changes. Otherwise the entry function's first two parameters become
   * `ImageHandle: EFI_HANDLE` and `SystemTable: EFI_SYSTEM_TABLE *`; with no
   * function at the entry point (`None.parameter_vars`) or a missing
   * parameter (`parameter_vars[i]`) the step raises.
   */
  function SetEntryPointPrototype(fs: seq<Function>, entry: int, terse: bool): (r: GlobalResolver.Propagation)
    requires AllWellFormed(fs)
    ensures terse ==> r == GlobalResolver.Propagated(fs)
    ensures r.Raised? <==> !terse && !HasEntryParameters(fs, entry)
    ensures !terse && !FunctionStartsAt(fs, entry) ==> r == GlobalResolver.Raised(NoFunctionAt(entry))
    ensures !terse && FunctionStartsAt(fs, entry) && fs[FunctionAt(fs, entry).value].arity < 2 ==>
      r == GlobalResolver.Raised(NoParameter(fs[FunctionAt(fs, entry).value].arity))
    ensures r.Propagated? ==> GlobalResolver.SameShape(fs, r.fs) && AllWellFormed(r.fs)
    ensures r.Propagated? && !terse ==>
      var e := FunctionAt(fs, entry).value;
      r.fs[e].vars[0] == ImageHandleVar && r.fs[e].vars[1] == SystemTableVar &&
      (forall k | 2 <= k < |fs[e].vars| :: r.fs[e].vars[k] == fs[e].vars[k]) &&
      (forall j | 0 <= j < |fs| && j != e :: r.fs[j] == fs[j])
  {
    if terse then GlobalResolver.Propagated(fs)
    else match FunctionAt(fs, entry)
      case None => GlobalResolver.Raised(NoFunctionAt(entry))
      case Some(e) =>
        if fs[e].arity < 2 then GlobalResolver.Raised(NoParameter(fs[e].arity))
        else
          var gs := fs[e := fs[e].(vars := fs[e].vars[0 := ImageHandleVar][1 := SystemTableVar])];
          assert GlobalResolver.SameShape(fs, gs);
          GlobalResolver.SameShapeWellFormed(fs, gs);
          GlobalResolver.Propagated(gs)
  }

  /** Applying the prototype a second time changes nothing more. */
  lemma EntryPrototypeIdempotent(fs: seq<Function>, entry: int, terse: bool)
    requires AllWellFormed(fs) && SetEntryPointPrototype(fs, entry, terse).Propagated?
    ensures var gs := SetEntryPointPrototype(fs, entry, terse).fs;
      SetEntryPointPrototype(gs, entry, terse) == GlobalResolver.Propagated(gs)
  {
    var gs := SetEntryPointPrototype(fs, entry, terse).fs;
    GlobalResolver.SameShapeFunctionAt(fs, gs, entry);
    if !terse {
      var e := FunctionAt(fs, entry).value;
      assert gs[e].vars[0 := ImageHandleVar][1 := SystemTableVar] == gs[e].vars;
      assert gs[e := gs[e].(vars := gs[e].vars)] == gs;
    }
  }

  /** The annotations of the global matches, one per match, in order. */
  function GlobalAnnotations(ms: seq<GlobalResolver.GlobalMatch>): (r: seq<Annotation>)
    ensures |r| == |ms|
  {
    seq(|ms|, k requires 0 <= k < |ms| => GlobalResolver.ToAnnotation(ms[k]))
  }

  /**
   * `instr` stores a variable of a core type through a constant pointer, and
   * `ann` names that address after the type, with the variable's type.
   */
  predicate StoreAnnotation(vars: seq<VarInfo>, instr: Expr, ann: Annotation) {
    GlobalResolver.IsGlobalStore(instr) && GlobalResolver.HasCoreType(vars, instr.src.id) &&
    ann == Annotation(instr.dest.src.constant, GlobalResolver.Classify(vars[instr.src.id].ty.tokens).value.symbol,
                      Some(vars[instr.src.id].ty))
  }

  /** The second pass records exactly the annotations of the core-typed stores of some function. */
  lemma GlobalAnnotationsFromStores(fs: seq<Function>, ann: Annotation)
    ensures ann in GlobalAnnotations(GlobalResolver.SetGlobalVariables(fs)) <==>
      exists j, i | 0 <= j < |fs| && 0 <= i < |fs[j].body| :: StoreAnnotation(fs[j].vars, fs[j].body[i], ann)
  {
    if ann in GlobalAnnotations(GlobalResolver.SetGlobalVariables(fs)) {
      AnnotationFromStore(fs, ann);
    }
    if j, i :| 0 <= j < |fs| && 0 <= i < |fs[j].body| && StoreAnnotation(fs[j].vars, fs[j].body[i], ann) {
      StoreAnnotated(fs, j, i, ann);
    }
  }

  /** A store annotation is the annotation of the instruction's match. */
  lemma StoreAnnotationMatch(vars: seq<VarInfo>, instr: Expr, ann: Annotation)
    ensures StoreAnnotation(vars, instr, ann) <==>
      GlobalResolver.SetIfUefiCoreType(vars, instr).Some? &&
      GlobalResolver.ToAnnotation(GlobalResolver.SetIfUefiCoreType(vars, instr).value) == ann
  {
  }

  lemma AnnotationFromStore(fs: seq<Function>, ann: Annotation)
    requires ann in GlobalAnnotations(GlobalResolver.SetGlobalVariables(fs))
    ensures exists j, i | 0 <= j < |fs| && 0 <= i < |fs[j].body| :: StoreAnnotation(fs[j].vars, fs[j].body[i], ann)
  {
    var ms := GlobalResolver.SetGlobalVariables(fs);
    var anns := GlobalAnnotations(ms);
    var k :| 0 <= k < |anns| && anns[k] == ann;
    var j, i :| 0 <= j < |fs| && 0 <= i < |fs[j].body| &&
      GlobalResolver.SetIfUefiCoreType(fs[j].vars, fs[j].body[i]) == Some(ms[k]);
    StoreAnnotationMatch(fs[j].vars, fs[j].body[i], ann);
  }

  lemma StoreAnnotated(fs: seq<Function>, j: nat, i: nat, ann: Annotation)
    requires j < |fs| && i < |fs[j].body| && StoreAnnotation(fs[j].vars, fs[j].body[i], ann)
    ensures ann in GlobalAnnotations(GlobalResolver.SetGlobalVariables(fs))
  {
    var ms := GlobalResolver.SetGlobalVariables(fs);
    StoreAnnotationMatch(fs[j].vars, fs[j].body[i], ann);
    var m := GlobalResolver.SetIfUefiCoreType(fs[j].vars, fs[j].body[i]).value;
    assert m in ms;
    var k :| 0 <= k < |ms| && ms[k] == m;
    assert GlobalAnnotations(ms)[k] == ann;
  }

  /**
   * `run`. `reanalyse` stands for `update_analysis_and_wait`: it sees the
   * host with the parameters phase A updated and every annotation recorded so
   * far, and returns the functions and code references the protocol pass
   * reads; the image's bytes are those the run started with.
   */
  function Run(kb: KnowledgeBase.Base, h: Host, reanalyse: (Host, seq<Annotation>) -> Analysis): (r: Report)
    requires AllWellFormed(h.functions)
    ensures var p := SetEntryPointPrototype(h.functions, h.entry, h.terse);
      p.Raised? ==> r == Report([], [], [], [], Some(p.failure))
    ensures SetEntryPointPrototype(h.functions, h.entry, h.terse).Propagated? ==>
      r.guids == Scanner.FindKnownGuids(kb, h)
    ensures var p := SetEntryPointPrototype(h.functions, h.entry, h.terse);
      p.Propagated? && GlobalResolver.ResolveGlobals(p.fs, h.entry).Failed? ==>
        r.globals == [] && r.bootServices == [] && r.protocols == [] &&
        r.failure == Some(GlobalResolver.ResolveGlobals(p.fs, h.entry).failure)
    ensures var p := SetEntryPointPrototype(h.functions, h.entry, h.terse);
      p.Propagated? && GlobalResolver.ResolveGlobals(p.fs, h.entry).Done? ==>
        var g := GlobalResolver.ResolveGlobals(p.fs, h.entry).globals;
        var after := Reanalysed(h, reanalyse(h.(functions := g.functions), r.guids + r.globals));
        r.globals == GlobalAnnotations(g.matches) &&
        r.bootServices == GlobalResolver.BootServicesAddresses(g.matches) &&
        ProtocolResolver.Pass(r.protocols, r.failure) == ProtocolResolver.NameProtocolVars(kb, after, r.bootServices)
    ensures BootServicesNamedIn(r)
    ensures r.bootServices == [] ==> r.protocols == []
    ensures forall k | 0 <= k < |r.protocols| :: ProtocolResolver.NamesKnownGuid(kb, h.mem, r.protocols[k])
  {
    match SetEntryPointPrototype(h.functions, h.entry, h.terse)
    case Raised(f) => Report([], [], [], [], Some(f))
    case Propagated(fs) => Passes(kb, h, fs, reanalyse)
  }

  /** The passes of `run` after the prototype, over the functions `fs` it left. */
  function Passes(kb: KnowledgeBase.Base, h: Host, fs: seq<Function>,
                  reanalyse: (Host, seq<Annotation>) -> Analysis): (r: Report)
    requires GlobalResolver.SameShape(h.functions, fs) && AllWellFormed(fs)
    ensures r.guids == Scanner.FindKnownGuids(kb, h)
    ensures GlobalResolver.ResolveGlobals(fs, h.entry).Failed? ==>
      r.globals == [] && r.bootServices == [] && r.protocols == [] &&
      r.failure == Some(GlobalResolver.ResolveGlobals(fs, h.entry).failure)
    ensures GlobalResolver.ResolveGlobals(fs, h.entry).Done? ==>
      var g := GlobalResolver.ResolveGlobals(fs, h.entry).globals;
      var after := Reanalysed(h, reanalyse(h.(functions := g.functions), r.guids + r.globals));
      r.globals == GlobalAnnotations(g.matches) &&
      r.bootServices == GlobalResolver.BootServicesAddresses(g.matches) &&
      ProtocolResolver.Pass(r.protocols, r.failure) == ProtocolResolver.NameProtocolVars(kb, after, r.bootServices)
    ensures BootServicesNamedIn(r)
    ensures r.bootServices == [] ==> r.protocols == []
    ensures forall k | 0 <= k < |r.protocols| :: ProtocolResolver.NamesKnownGuid(kb, h.mem, r.protocols[k])
  {
    PrototypeKeepsGuids(kb, h, fs);
    var guids := Scanner.FindKnownGuids(kb, h.(functions := fs));
    match GlobalResolver.ResolveGlobals(fs, h.entry)
    case Failed(f) => Report(guids, [], [], [], Some(f))
    case Done(g) => Finish(kb, h, guids, g, reanalyse)
  }

  /** The GUID scan sees the same function starts after the prototype, so it finds the same GUIDs. */
  lemma PrototypeKeepsGuids(kb: KnowledgeBase.Base, h: Host, fs: seq<Function>)
    requires GlobalResolver.SameShape(h.functions, fs)
    ensures Scanner.FindKnownGuids(kb, h.(functions := fs)) == Scanner.FindKnownGuids(kb, h)
  {
    forall a
      ensures FunctionStartsAt(fs, a) <==> FunctionStartsAt(h.functions, a)
    {
      GlobalResolver.SameShapeFunctionAt(h.functions, fs, a);
    }
    Scanner.FindKnownGuidsStarts(kb, h, fs);
  }

  /**
   * The rest of `run` once phase A has completed: the globals of phase B,
   * the re-analysis, then the protocol pass over the re-analysed host.
   */
  function Finish(kb: KnowledgeBase.Base, h: Host, guids: seq<Annotation>, g: GlobalResolver.Globals,
                  reanalyse: (Host, seq<Annotation>) -> Analysis): (r: Report)
    requires g.matches == GlobalResolver.SetGlobalVariables(g.functions)
    ensures r.guids == guids
    ensures var after := Reanalysed(h, reanalyse(h.(functions := g.functions), r.guids + r.globals));
      r.globals == GlobalAnnotations(g.matches) &&
      r.bootServices == GlobalResolver.BootServicesAddresses(g.matches) &&
      ProtocolResolver.Pass(r.protocols, r.failure) == ProtocolResolver.NameProtocolVars(kb, after, r.bootServices)
    ensures BootServicesNamedIn(r)
    ensures r.bootServices == [] ==> r.protocols == []
    ensures forall k | 0 <= k < |r.protocols| :: ProtocolResolver.NamesKnownGuid(kb, h.mem, r.protocols[k])
  {
    var globals := GlobalAnnotations(g.matches);
    var bs := GlobalResolver.BootServicesAddresses(g.matches);
    BootServicesNamed(g.functions);
    var after := Reanalysed(h, reanalyse(h.(functions := g.functions), guids + globals));
    var p := ProtocolResolver.NameProtocolVars(kb, after, bs);
    ProtocolResolver.NameProtocolVarsKnown(kb, after, bs);
    Report(guids, globals, bs, p.annotations, p.failure)
  }

  /** Every address on the BootServices list carries a `gBS` annotation. */
  lemma BootServicesNamed(fs: seq<Function>)
    ensures var ms := GlobalResolver.SetGlobalVariables(fs);
      forall a | a in GlobalResolver.BootServicesAddresses(ms) :: exists k | 0 <= k < |GlobalAnnotations(ms)| ::
        GlobalAnnotations(ms)[k].address == a && GlobalAnnotations(ms)[k].symbol == "gBS"
  {
    var ms := GlobalResolver.SetGlobalVariables(fs);
    var globals := GlobalAnnotations(ms);
    forall a | a in GlobalResolver.BootServicesAddresses(ms)
      ensures exists k | 0 <= k < |globals| :: globals[k].address == a && globals[k].symbol == "gBS"
    {
      var k :| 0 <= k < |ms| && ms[k].bootServices && ms[k].address == a;
      BootServicesSymbol(fs, k);
      assert k < |globals| && globals[k] == GlobalResolver.ToAnnotation(ms[k]);
    }
  }

  /** A global on the BootServices list is named `gBS`. */
  lemma BootServicesSymbol(fs: seq<Function>, k: nat)
    requires k < |GlobalResolver.SetGlobalVariables(fs)| && GlobalResolver.SetGlobalVariables(fs)[k].bootServices
    ensures GlobalResolver.SetGlobalVariables(fs)[k].symbol == "gBS"
  {
    var ms := GlobalResolver.SetGlobalVariables(fs);
    var j, i :| 0 <= j < |fs| && 0 <= i < |fs[j].body| &&
      GlobalResolver.SetIfUefiCoreType(fs[j].vars, fs[j].body[i]) == Some(ms[k]);
  }

  /**
   * The constructor and `run` together: `None` when the knowledge base fails
   * to load (the constructor raises before any pass runs).
   */
  function RunFromTable(table: KnowledgeBase.Table, h: Host, reanalyse: (Host, seq<Annotation>) -> Analysis): (r: Option<Report>)
    requires AllWellFormed(h.functions)
    ensures r.None? <==> KnowledgeBase.Load(table).None?
    ensures r.Some? ==> r.value == Run(KnowledgeBase.Load(table).value, h, reanalyse)
  {
    match KnowledgeBase.Load(table)
    case None => None
    case Some(kb) => Some(Run(kb, h, reanalyse))
  }

  // The entry point of a PE image whose parameters the analysis left untyped.

  const UntypedEntry: Function := GlobalResolver.SampleEntry.(vars := GlobalResolver.UntypedArgs)
  const UntypedHost: Host := Host(map[], [], [UntypedEntry, GlobalResolver.SampleInit], 0x1000, map[], false)

  /** The prototype types the entry's parameters, which is what the sample's phase A starts from. */
  lemma PrototypeTypesSampleEntry()
    ensures AllWellFormed(UntypedHost.functions)
    ensures SetEntryPointPrototype(UntypedHost.functions, 0x1000, false) == GlobalResolver.Propagated(GlobalResolver.SampleFunctions)
  {
    var fs := UntypedHost.functions;
    assert WellFormed(fs[0]) && WellFormed(fs[1]);
    assert FunctionAt(fs, 0x1000) == Some(0);
    var vars := GlobalResolver.UntypedArgs[0 := ImageHandleVar][1 := SystemTableVar];
    assert vars == [ImageHandleVar, SystemTableVar];
    assert UntypedEntry.(vars := vars) == GlobalResolver.SampleEntry;
  }

  /**
   * Without the prototype the `gST` store would go unseen: the run types the
   * entry, phase A carries `SystemTable` into the initialiser, and the second
   * pass names the global.
   */
  lemma UntypedEntryRevealsSystemTable(kb: KnowledgeBase.Base, reanalyse: (Host, seq<Annotation>) -> Analysis)
    ensures AllWellFormed(UntypedHost.functions)
    ensures Run(kb, UntypedHost, reanalyse) ==
      Report([], [GlobalResolver.ToAnnotation(GlobalResolver.SampleGlobal)], [], [], None)
  {
    PrototypeTypesSampleEntry();
    GlobalResolver.PropagationRevealsSystemTable();
    Scanner.NoSegmentsNoGuids(kb, UntypedHost);
    var ms := [GlobalResolver.SampleGlobal];
    assert GlobalAnnotations(ms) == [GlobalResolver.ToAnnotation(GlobalResolver.SampleGlobal)];
    assert GlobalResolver.BootServicesAddresses(ms) == [];
  }

  /** A PE image with no function at its entry point stops before the GUID scan. */
  lemma MissingEntryStopsRun(kb: KnowledgeBase.Base, h: Host, reanalyse: (Host, seq<Annotation>) -> Analysis)
    requires AllWellFormed(h.functions) && !h.terse && !FunctionStartsAt(h.functions, h.entry)
    ensures Run(kb, h, reanalyse) == Report([], [], [], [], Some(NoFunctionAt(h.entry)))
  {
  }
}
