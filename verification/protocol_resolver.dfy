/**
 * The protocol name resolver: `_name_protocol_vars` (helper.py:271-296),
 * `_name_protocol_var` (helper.py:248-269) and `_name_proto_from_guid`
 * (helper.py:227-246).
 *
 * Every function that refers to a Boot Services global is searched for calls
 * through a Boot Services field that take a GUID and a protocol pointer; the
 * pointer's global is named after the GUID.
 */
module ProtocolResolver {
  import opened Wrappers
  import opened Ir
  import Text
  import Guid
  import KnowledgeBase
  import Seqs
  import Scanner

  const LocateProtocol: string := "->LocateProtocol"
  const InstallMultipleProtocolInterfaces: string := "->InstallMultipleProtocolInterfaces"
  const InstallProtocolInterface: string := "->InstallProtocolInterface"

  /** The argument positions of the GUID pointer and of the protocol pointer. */
  datatype Indices = Indices(guid: nat, proto: nat)

  /**
   * Lines 290-296: the rendered call target picks the argument positions by
   * its suffix, tested in this order.
   */
  function SelectIndices(rendered: string): (r: Option<Indices>)
    ensures Text.EndsWith(rendered, LocateProtocol) ==> r == Some(Indices(0, 2))
    ensures Text.EndsWith(rendered, InstallMultipleProtocolInterfaces) ==> r == Some(Indices(1, 2))
    ensures Text.EndsWith(rendered, InstallProtocolInterface) ==> r == Some(Indices(1, 3))
    ensures r.None? <==>
      !Text.EndsWith(rendered, LocateProtocol) &&
      !Text.EndsWith(rendered, InstallMultipleProtocolInterfaces) &&
      !Text.EndsWith(rendered, InstallProtocolInterface)
  {
    SuffixesExclusive(rendered);
    if Text.EndsWith(rendered, LocateProtocol) then Some(Indices(0, 2))
    else if Text.EndsWith(rendered, InstallMultipleProtocolInterfaces) then Some(Indices(1, 2))
    else if Text.EndsWith(rendered, InstallProtocolInterface) then Some(Indices(1, 3))
    else None
  }

  /** No text ends with two of the three suffixes (their last letters differ), so their order does not matter. */
  lemma SuffixesExclusive(rendered: string)
    ensures !(Text.EndsWith(rendered, LocateProtocol) && Text.EndsWith(rendered, InstallMultipleProtocolInterfaces))
    ensures !(Text.EndsWith(rendered, LocateProtocol) && Text.EndsWith(rendered, InstallProtocolInterface))
    ensures !(Text.EndsWith(rendered, InstallMultipleProtocolInterfaces) && Text.EndsWith(rendered, InstallProtocolInterface))
  {
    if |rendered| > 0 {
      var last := rendered[|rendered| - 1];
      EndsWithLast(rendered, LocateProtocol);
      EndsWithLast(rendered, InstallMultipleProtocolInterfaces);
      EndsWithLast(rendered, InstallProtocolInterface);
    }
  }

  lemma EndsWithLast(s: string, suffix: string)
    requires |s| > 0 && |suffix| > 0
    ensures Text.EndsWith(s, suffix) ==> s[|s| - 1] == suffix[|suffix| - 1]
  {
    if Text.EndsWith(s, suffix) {
      assert s[|s| - |suffix|..][|suffix| - 1] == s[|s| - 1];
    }
  }

  /** The member name alone, without the `->` before it, selects nothing. */
  lemma BareMemberNameIgnored()
    ensures SelectIndices("LocateProtocol").None?
    ensures SelectIndices("gBS->LocateProtocol") == Some(Indices(0, 2))
  {
    assert !Text.EndsWith("LocateProtocol", LocateProtocol);
    assert !Text.EndsWith("LocateProtocol", InstallMultipleProtocolInterfaces);
    assert !Text.EndsWith("LocateProtocol", InstallProtocolInterface);
    assert "gBS->LocateProtocol"[3..] == LocateProtocol;
  }

  /**
   * Lines 243-244: a name ending in `Guid` loses every `Guid` it contains
   * (`str.replace`), any other name is kept.
   */
  function DeriveName(name: string): (r: string)
    ensures !Text.EndsWith(name, "Guid") ==> r == name
    ensures Text.EndsWith(name, "Guid") ==> |r| + 4 <= |name|
  {
    if Text.EndsWith(name, "Guid") then
      assert Text.StartsWith(name[|name| - 4..], "Guid");
      ContainsSuffix(name, "Guid");
      Text.RemoveAllShrinks(name, "Guid");
      Text.RemoveAll(name, "Guid")
    else name
  }

  lemma {:induction false} ContainsSuffix(s: string, suffix: string)
    requires Text.EndsWith(s, suffix)
    ensures Text.Contains(s, suffix)
    decreases |s|
  {
    if !Text.StartsWith(s, suffix) {
      assert s[1..][|s[1..]| - |suffix|..] == s[|s| - |suffix|..];
      ContainsSuffix(s[1..], suffix);
    }
  }

  /** A name whose only `Guid` is the trailing one loses exactly that suffix. */
  lemma DeriveNameStripsSuffix(p: string)
    requires !Text.Contains((p + "Guid")[..|p| + 3], "Guid")
    ensures DeriveName(p + "Guid") == p
  {
    assert (p + "Guid")[|p + "Guid"| - 4..] == "Guid";
    Text.RemoveOnlyTrailing(p, "Guid");
  }

  /** `Guid` inside the name goes too: `GuidedGuid` becomes `ed`. */
  lemma DeriveNameRemovesInnerGuid()
    ensures DeriveName("GuidedGuid") == "ed"
  {
    var s := "GuidedGuid";
    assert s[6..] == "Guid" && s[..4] == "Guid";
    assert Text.EndsWith(s, "Guid") && Text.StartsWith(s, "Guid");
    var t := s[4..];
    assert t == "edGuid" && t[..4] == "edGu" && t[1..] == "dGuid" && t[1..][..4] == "dGui";
    assert t[2..] == "Guid" && t[1..][1..] == t[2..] && t[2..][4..] == [];
    assert Text.RemoveAll(t[2..], "Guid") == [];
    assert Text.RemoveAll(t[1..], "Guid") == "d";
    assert Text.RemoveAll(t, "Guid") == "ed";
  }

  /** The outcome of one guarded step: a name, nothing, or an exception that stops the pass. */
  datatype Step = Named(annotation: Annotation) | Skipped | Crashed(failure: Failure)

  /**
   * `_name_proto_from_guid`: read the GUID at `guidAddr`; a read of nothing
   * raises (`len(None)`), a short read is skipped; a known, non-empty name
   * gives a symbol (no type) at `varAddr`.
   */
  function NameProtoFromGuid(kb: KnowledgeBase.Base, mem: map<int, Guid.byte>, guidAddr: int, varAddr: int): (r: Step)
    ensures r.Crashed? <==> guidAddr !in mem
    ensures r.Crashed? ==> r.failure == UnmappedGuid(guidAddr)
    ensures r.Named? <==> Readable16(mem, guidAddr) && Scanner.KnownName(kb, mem, guidAddr).Some?
    ensures r.Named? ==> r.annotation == Annotation(varAddr, DeriveName(Scanner.KnownName(kb, mem, guidAddr).value), None)
  {
    ReadFull(mem, guidAddr);
    match Read(mem, guidAddr, 16)
    case None => Crashed(UnmappedGuid(guidAddr))
    case Some(guid) =>
      if |guid| != 16 then Skipped
      else match KnowledgeBase.LookupName(kb, guid)
        case None => Skipped
        case Some(name) => if name == "" then Skipped else Named(Annotation(varAddr, DeriveName(name), None))
  }

  /**
   * `_name_protocol_var`: the guard `len(params) < max(indices)` lets a call
   * with exactly `max` arguments through, and indexing the missing argument
   * then raises. Both arguments must be constant pointers.
   */
  function NameProtocolVar(kb: KnowledgeBase.Base, mem: map<int, Guid.byte>, params: seq<Expr>, ix: Indices): (r: Step)
    requires ix.guid < ix.proto
    ensures |params| < ix.proto ==> r == Skipped
    ensures r == Crashed(ArgumentIndexOutOfRange(ix.proto)) <==> |params| == ix.proto && params[ix.guid].ConstPtr?
    ensures r.Named? || (r.Crashed? && r.failure.UnmappedGuid?) ==>
      ix.proto < |params| && params[ix.guid].ConstPtr? && params[ix.proto].ConstPtr? &&
      r == NameProtoFromGuid(kb, mem, params[ix.guid].constant, params[ix.proto].constant)
    ensures ix.proto < |params| && params[ix.guid].ConstPtr? && params[ix.proto].ConstPtr? ==>
      r == NameProtoFromGuid(kb, mem, params[ix.guid].constant, params[ix.proto].constant)
    ensures ix.guid < |params| && !params[ix.guid].ConstPtr? ==> r == Skipped
    ensures ix.proto < |params| && !params[ix.proto].ConstPtr? ==> r == Skipped
    ensures r.Crashed? ==> r.failure == ArgumentIndexOutOfRange(ix.proto) || r.failure == UnmappedGuid(params[ix.guid].constant)
  {
    if |params| < ix.proto then Skipped
    else if !params[ix.guid].ConstPtr? then Skipped
    else if ix.proto >= |params| then Crashed(ArgumentIndexOutOfRange(ix.proto))
    else if !params[ix.proto].ConstPtr? then Skipped
    else NameProtoFromGuid(kb, mem, params[ix.guid].constant, params[ix.proto].constant)
  }

  /** A `LocateProtocol` call with only two arguments passes the guard and then raises on the third. */
  lemma TwoArgumentLocateProtocolRaises(kb: KnowledgeBase.Base, mem: map<int, Guid.byte>, g: int, p: int)
    ensures NameProtocolVar(kb, mem, [ConstPtr(g), ConstPtr(p)], Indices(0, 2)) == Crashed(ArgumentIndexOutOfRange(2))
  {
  }

  /**
   * One instruction of lines 284-296: only a `Call` through a field whose
   * rendered text has one of the three suffixes is looked at.
   */
  function ProtocolCallSite(kb: KnowledgeBase.Base, mem: map<int, Guid.byte>, instr: Expr): (r: Step)
    ensures !(instr.Call? && instr.dest.DerefField?) ==> r == Skipped
    ensures instr.Call? && instr.dest.DerefField? && SelectIndices(instr.dest.rendered).None? ==> r == Skipped
    ensures instr.Call? && instr.dest.DerefField? && SelectIndices(instr.dest.rendered).Some? ==>
      r == NameProtocolVar(kb, mem, instr.params, SelectIndices(instr.dest.rendered).value)
  {
    match instr
    case Call(DerefField(_, rendered), params) =>
      (match SelectIndices(rendered)
       case None => Skipped
       case Some(ix) => NameProtocolVar(kb, mem, params, ix))
    case _ => Skipped
  }

  /** Lines 276-281: the instructions of the first function containing the reference, or none. */
  function InstructionsAt(h: Host, xref: int): seq<Expr> {
    var funcs := FunctionsContaining(h.functions, xref);
    if |funcs| == 0 then [] else funcs[0].body
  }

  /** The instructions examined for one BootServices global, over its code references in order. */
  function InstructionsFor(h: Host, global: int): seq<Expr> {
    Seqs.ConcatMap((xref: int) => InstructionsAt(h, xref), CodeRefs(h, global))
  }

  /** Every instruction `_name_protocol_vars` examines, in the order it examines them. */
  function Examined(h: Host, bootServices: seq<int>): seq<Expr> {
    Seqs.ConcatMap((global: int) => InstructionsFor(h, global), bootServices)
  }

  /** The names found, and the exception that ended the pass early, if any. */
  datatype Pass = Pass(annotations: seq<Annotation>, failure: Option<Failure>)

  /** None of the steps before position `i` raises. */
  predicate NoCrashBefore<T>(step: T -> Step, instrs: seq<T>, i: nat)
    requires i <= |instrs|
  {
    forall j | 0 <= j < i :: !step(instrs[j]).Crashed?
  }

  /**
   * The steps over the examined instructions, stopping at the first that
   * raises; the names found before it are kept.
   */
  function RunSteps<T>(step: T -> Step, instrs: seq<T>): (r: Pass)
    ensures |r.annotations| <= |instrs|
    ensures r.failure.None? <==> forall i | 0 <= i < |instrs| :: !step(instrs[i]).Crashed?
    decreases |instrs|
  {
    if |instrs| == 0 then Pass([], None)
    else
      var rest := RunSteps(step, instrs[1..]);
      assert forall i | 1 <= i < |instrs| :: instrs[i] == instrs[1..][i - 1];
      match step(instrs[0])
      case Crashed(f) => Pass([], Some(f))
      case Skipped => rest
      case Named(a) => Pass([a] + rest.annotations, rest.failure)
  }

  lemma RunStepsUnfold<T>(step: T -> Step, instrs: seq<T>)
    requires |instrs| > 0
    ensures step(instrs[0]).Crashed? ==> RunSteps(step, instrs) == Pass([], Some(step(instrs[0]).failure))
    ensures step(instrs[0]).Skipped? ==> RunSteps(step, instrs) == RunSteps(step, instrs[1..])
    ensures step(instrs[0]).Named? ==>
      RunSteps(step, instrs) ==
      Pass([step(instrs[0]).annotation] + RunSteps(step, instrs[1..]).annotations, RunSteps(step, instrs[1..]).failure)
  {
  }

  /** Every name comes from a step reached before any step raised. */
  lemma {:induction false} RunStepsSound<T>(step: T -> Step, instrs: seq<T>)
    ensures forall k | 0 <= k < |RunSteps(step, instrs).annotations| :: exists i | 0 <= i < |instrs| ::
      step(instrs[i]) == Named(RunSteps(step, instrs).annotations[k]) && NoCrashBefore(step, instrs, i)
    decreases |instrs|
  {
    if |instrs| > 0 {
      RunStepsUnfold(step, instrs);
      RunStepsSound(step, instrs[1..]);
      var r, rest := RunSteps(step, instrs), RunSteps(step, instrs[1..]);
      forall k | 0 <= k < |r.annotations|
        ensures exists i | 0 <= i < |instrs| :: step(instrs[i]) == Named(r.annotations[k]) && NoCrashBefore(step, instrs, i)
      {
        var off := if step(instrs[0]).Named? then 1 else 0;
        if k < off {
          assert step(instrs[0]) == Named(r.annotations[k]) && NoCrashBefore(step, instrs, 0);
        } else {
          assert r.annotations[k] == rest.annotations[k - off];
          var i :| 0 <= i < |instrs[1..]| && step(instrs[1..][i]) == Named(rest.annotations[k - off]) && NoCrashBefore(step, instrs[1..], i);
          assert instrs[i + 1] == instrs[1..][i];
          assert NoCrashBefore(step, instrs, i + 1) by {
            forall j | 0 <= j < i + 1
              ensures !step(instrs[j]).Crashed?
            {
              if j > 0 {
                assert instrs[j] == instrs[1..][j - 1];
              }
            }
          }
        }
      }
    } else {
      assert RunSteps(step, instrs).annotations == [];
    }
  }

  /** Every name found before the first step that raises is kept. */
  lemma {:induction false} RunStepsComplete<T>(step: T -> Step, instrs: seq<T>, i: nat)
    requires i < |instrs| && step(instrs[i]).Named? && NoCrashBefore(step, instrs, i)
    ensures step(instrs[i]).annotation in RunSteps(step, instrs).annotations
    decreases |instrs|
  {
    RunStepsUnfold(step, instrs);
    if i > 0 {
      assert !step(instrs[0]).Crashed?;
      assert instrs[1..][i - 1] == instrs[i];
      assert NoCrashBefore(step, instrs[1..], i - 1) by {
        forall j | 0 <= j < i - 1
          ensures !step(instrs[1..][j]).Crashed?
        {
          assert instrs[1..][j] == instrs[j + 1];
        }
      }
      RunStepsComplete(step, instrs[1..], i - 1);
    }
  }

  /** A pass that ends early ends at the first step that raises, with its exception. */
  lemma {:induction false} RunStepsFailure<T>(step: T -> Step, instrs: seq<T>)
    ensures RunSteps(step, instrs).failure.Some? ==> exists i | 0 <= i < |instrs| ::
      step(instrs[i]) == Crashed(RunSteps(step, instrs).failure.value) && NoCrashBefore(step, instrs, i)
    decreases |instrs|
  {
    if |instrs| > 0 {
      RunStepsUnfold(step, instrs);
      var r := RunSteps(step, instrs);
      if step(instrs[0]).Crashed? {
        assert NoCrashBefore(step, instrs, 0);
      } else if r.failure.Some? {
        RunStepsFailure(step, instrs[1..]);
        var i :| 0 <= i < |instrs[1..]| &&
          step(instrs[1..][i]) == Crashed(RunSteps(step, instrs[1..]).failure.value) && NoCrashBefore(step, instrs[1..], i);
        assert instrs[i + 1] == instrs[1..][i];
        assert NoCrashBefore(step, instrs, i + 1) by {
          forall j | 0 <= j < i + 1
            ensures !step(instrs[j]).Crashed?
          {
            if j > 0 {
              assert instrs[j] == instrs[1..][j - 1];
            }
          }
        }
      }
    }
  }

  /** `FooProtocolGuid` contains `Guid` only at its end. */
  lemma FooProtocolName()
    ensures DeriveName("FooProtocolGuid") == "FooProtocol"
  {
    var p := "FooProtocol";
    var t := (p + "Guid")[..|p| + 3];
    assert t == "FooProtocolGui";
    Text.NotContainsWithoutFirstChar(t[..11], "Guid");
    Text.ShorterNotContains(t[11..], "Guid");
    Text.PrefixKeepsAbsent(t[..11], t[11..], "Guid");
    assert t[..11] + t[11..] == t;
    DeriveNameStripsSuffix(p);
    assert p + "Guid" == "FooProtocolGuid";
  }

  /**
   * `gBS->LocateProtocol(&FooProtocolGuid, NULL, &global)` with the GUID
   * known and mapped names the global `FooProtocol`, without a type.
   */
  lemma LocateProtocolNamesGlobal(b: seq<Guid.byte>)
    requires |b| == 16
    ensures ProtocolCallSite([("FooProtocolGuid", b)], Placed(b, 0x500),
        Call(DerefField(Var(0), "gBS->LocateProtocol"), [ConstPtr(0x500), ConstPtr(0), ConstPtr(0x600)]))
      == Named(Annotation(0x600, "FooProtocol", None))
  {
    PlacedWindows(b, 0x500, 0x500);
    assert "gBS->LocateProtocol"[3..] == LocateProtocol;
    assert KnowledgeBase.LookupName([("FooProtocolGuid", b)], b) == Some("FooProtocolGuid");
    FooProtocolName();
  }

  /**
   * `gBS->LocateProtocol(&guid, NULL, &global)` where the GUID pointer is
   * computed rather than constant: the call site is skipped, with no name
   * and no exception, whatever the knowledge base and memory hold.
   */
  lemma ComputedGuidSkipped(kb: KnowledgeBase.Base, mem: map<int, Guid.byte>)
    ensures ProtocolCallSite(kb, mem,
        Call(DerefField(Var(0), "gBS->LocateProtocol"), [Var(1), ConstPtr(0), ConstPtr(0x3000)])) == Skipped
  {
    assert "gBS->LocateProtocol"[3..] == LocateProtocol;
  }

  /**
   * `ann` is a protocol name the knowledge base justifies: the derived name
   * of a known GUID whose 16 bytes are mapped somewhere in `mem`.
   */
  ghost predicate NamesKnownGuid(kb: KnowledgeBase.Base, mem: map<int, Guid.byte>, ann: Annotation) {
    ann.dataVar.None? &&
    exists g | Readable16(mem, g) :: Scanner.KnownName(kb, mem, g).Some? &&
      ann.symbol == DeriveName(Scanner.KnownName(kb, mem, g).value)
  }

  /** A call site names its protocol variable only after a known GUID in memory. */
  lemma CallSiteNamesKnownGuid(kb: KnowledgeBase.Base, mem: map<int, Guid.byte>, instr: Expr)
    requires ProtocolCallSite(kb, mem, instr).Named?
    ensures NamesKnownGuid(kb, mem, ProtocolCallSite(kb, mem, instr).annotation)
  {
    var ix := SelectIndices(instr.dest.rendered).value;
    var g := instr.params[ix.guid].constant;
    assert Readable16(mem, g);
  }

  /** The step `_name_protocol_vars` takes on each instruction. */
  function CallSiteStep(kb: KnowledgeBase.Base, mem: map<int, Guid.byte>): Expr -> Step {
    (instr: Expr) => ProtocolCallSite(kb, mem, instr)
  }

  /**
   * `_name_protocol_vars` over the BootServices globals, in the order they
   * were found: the names of the examined call sites reached before the
   * first exception, and that exception.
   */
  function NameProtocolVars(kb: KnowledgeBase.Base, h: Host, bootServices: seq<int>): (r: Pass)
    ensures |bootServices| == 0 ==> r == Pass([], None)
    ensures forall k | 0 <= k < |r.annotations| :: exists i | 0 <= i < |Examined(h, bootServices)| ::
      ProtocolCallSite(kb, h.mem, Examined(h, bootServices)[i]) == Named(r.annotations[k])
    ensures forall k | 0 <= k < |r.annotations| :: r.annotations[k].dataVar.None?
    ensures r.failure.None? <==> forall i | 0 <= i < |Examined(h, bootServices)| ::
      !ProtocolCallSite(kb, h.mem, Examined(h, bootServices)[i]).Crashed?
    ensures forall i | 0 <= i < |Examined(h, bootServices)| &&
      ProtocolCallSite(kb, h.mem, Examined(h, bootServices)[i]).Named? &&
      NoCrashBefore(CallSiteStep(kb, h.mem), Examined(h, bootServices), i) ::
      ProtocolCallSite(kb, h.mem, Examined(h, bootServices)[i]).annotation in r.annotations
  {
    var step := CallSiteStep(kb, h.mem);
    var instrs := Examined(h, bootServices);
    var r := RunSteps(step, instrs);
    RunStepsSound(step, instrs);
    assert forall i | 0 <= i < |instrs| && step(instrs[i]).Named? && NoCrashBefore(step, instrs, i) ::
      step(instrs[i]).annotation in r.annotations by {
      forall i | 0 <= i < |instrs| && step(instrs[i]).Named? && NoCrashBefore(step, instrs, i)
        ensures step(instrs[i]).annotation in r.annotations
      {
        RunStepsComplete(step, instrs, i);
      }
    }
    assert |bootServices| == 0 ==> instrs == [];
    r
  }

  /** Every name the pass reports is justified by a known GUID in the host's memory. */
  lemma NameProtocolVarsKnown(kb: KnowledgeBase.Base, h: Host, bootServices: seq<int>)
    ensures var r := NameProtocolVars(kb, h, bootServices);
      forall k | 0 <= k < |r.annotations| :: NamesKnownGuid(kb, h.mem, r.annotations[k])
  {
    var r := NameProtocolVars(kb, h, bootServices);
    var instrs := Examined(h, bootServices);
    forall k | 0 <= k < |r.annotations|
      ensures NamesKnownGuid(kb, h.mem, r.annotations[k])
    {
      var i :| 0 <= i < |instrs| && ProtocolCallSite(kb, h.mem, instrs[i]) == Named(r.annotations[k]);
      CallSiteNamesKnownGuid(kb, h.mem, instrs[i]);
    }
  }

  /** The instructions examined for several lists of globals follow the lists' order. */
  lemma ExaminedAppend(h: Host, a: seq<int>, b: seq<int>)
    ensures Examined(h, a + b) == Examined(h, a) + Examined(h, b)
  {
    Seqs.ConcatMapAppend((global: int) => InstructionsFor(h, global), a, b);
  }

  /** Every examined instruction belongs to the first function containing a code reference to one of the globals. */
  lemma ExaminedSound(h: Host, bootServices: seq<int>, instr: Expr)
    requires instr in Examined(h, bootServices)
    ensures exists g, x | g in bootServices && x in CodeRefs(h, g) ::
      |FunctionsContaining(h.functions, x)| > 0 && instr in FunctionsContaining(h.functions, x)[0].body
  {
    var perGlobal := (global: int) => InstructionsFor(h, global);
    Seqs.ConcatMapSound(perGlobal, bootServices);
    var es := Examined(h, bootServices);
    var k :| 0 <= k < |es| && es[k] == instr;
    var gi :| 0 <= gi < |bootServices| && instr in InstructionsFor(h, bootServices[gi]);
    var g := bootServices[gi];
    var perRef := (xref: int) => InstructionsAt(h, xref);
    Seqs.ConcatMapSound(perRef, CodeRefs(h, g));
    var ins := InstructionsFor(h, g);
    var m :| 0 <= m < |ins| && ins[m] == instr;
    var xi :| 0 <= xi < |CodeRefs(h, g)| && instr in InstructionsAt(h, CodeRefs(h, g)[xi]);
    var x := CodeRefs(h, g)[xi];
    assert g in bootServices && x in CodeRefs(h, g);
  }
}
