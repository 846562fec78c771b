/**
 * The global-assignment resolver: `_set_if_uefi_core_type`
 * (helper.py:137-182), `_check_and_prop_types_on_call` (helper.py:184-210)
 * and `_set_global_variables` (helper.py:212-225).
 *
 * Phase A walks the entry function and copies the UEFI-typed arguments of
 * each direct call onto the callee's parameters. Phase B walks every
 * function and names the globals that receive a variable of a UEFI core type.
 */
module GlobalResolver {
  import opened Wrappers
  import opened Ir
  import Text
  import Seqs

  /**
   * The core types the resolver recognises, in the order the `elif` chain
   * tests them: (token count, leading token, symbol).
   */
  const CoreTypes: seq<(nat, string, string)> := [
    (1, "EFI_HANDLE", "gHandle"),
    (2, "EFI_BOOT_SERVICES", "gBS"),
    (2, "EFI_RUNTIME_SERVICES", "gRS"),
    (2, "EFI_SYSTEM_TABLE", "gST"),
    (1, "EFI_PEI_FILE_HANDLE", "gHandle"),
    (2, "EFI_PEI_SERVICES", "gPeiServices")
  ]

  /** The token list has row `i`'s shape: its count and leading token. */
  predicate RowMatches(tokens: seq<string>, i: nat)
    requires i < |CoreTypes|
  {
    0 < |tokens| == CoreTypes[i].0 && tokens[0] == CoreTypes[i].1
  }

  /** A recognised type: the symbol it gives, and whether the address joins the BootServices list. */
  datatype CoreMatch = CoreMatch(symbol: string, bootServices: bool)

  /**
   * The `elif` chain of lines 164-181 over the source variable's type tokens.
   * It recognises exactly the token lists of some row, names them with that
   * row's symbol, and only the `EFI_BOOT_SERVICES` row joins the list.
   */
  function Classify(tokens: seq<string>): (r: Option<CoreMatch>)
    ensures r.Some? <==> exists i | 0 <= i < |CoreTypes| :: RowMatches(tokens, i)
    ensures forall i | 0 <= i < |CoreTypes| && RowMatches(tokens, i) :: r == Some(CoreMatch(CoreTypes[i].2, i == 1))
    ensures r.Some? ==> (r.value.bootServices <==> r.value.symbol == "gBS")
  {
    if |tokens| == 1 && tokens[0] == "EFI_HANDLE" then assert RowMatches(tokens, 0); Some(CoreMatch("gHandle", false))
    else if |tokens| == 2 && tokens[0] == "EFI_BOOT_SERVICES" then assert RowMatches(tokens, 1); Some(CoreMatch("gBS", true))
    else if |tokens| == 2 && tokens[0] == "EFI_RUNTIME_SERVICES" then assert RowMatches(tokens, 2); Some(CoreMatch("gRS", false))
    else if |tokens| == 2 && tokens[0] == "EFI_SYSTEM_TABLE" then assert RowMatches(tokens, 3); Some(CoreMatch("gST", false))
    else if |tokens| == 1 && tokens[0] == "EFI_PEI_FILE_HANDLE" then assert RowMatches(tokens, 4); Some(CoreMatch("gHandle", false))
    else if |tokens| == 2 && tokens[0] == "EFI_PEI_SERVICES" then assert RowMatches(tokens, 5); Some(CoreMatch("gPeiServices", false))
    else None
  }

  /** Only a two-token type led by `EFI_BOOT_SERVICES` joins the BootServices list. */
  lemma ClassifyBootServices(tokens: seq<string>)
    ensures (Classify(tokens).Some? && Classify(tokens).value.bootServices) <==>
      |tokens| == 2 && tokens[0] == "EFI_BOOT_SERVICES"
  {
  }

  /** A pointer to a core type has two tokens (`EFI_BOOT_SERVICES`, `*`); the bare type is not recognised. */
  lemma BareBootServicesIgnored()
    ensures Classify(["EFI_BOOT_SERVICES"]).None?
    ensures Classify(["EFI_BOOT_SERVICES", "*"]) == Some(CoreMatch("gBS", true))
    ensures Classify(["EFI_HANDLE", "*"]).None?
  {
  }

  /** A named global: the symbol and data variable at `address`, and whether it is a BootServices global. */
  datatype GlobalMatch = GlobalMatch(address: int, symbol: string, ty: VarType, bootServices: bool)

  /** The annotation a match asks the host to record. */
  function ToAnnotation(m: GlobalMatch): Annotation {
    Annotation(m.address, m.symbol, Some(m.ty))
  }

  /** `instr` stores a variable into a constant address: `*(c) = v`. */
  predicate IsGlobalStore(instr: Expr) {
    instr.Assign? && instr.dest.Deref? && instr.dest.src.ConstPtr? && instr.src.Var?
  }

  /** Variable `id` of the table exists and has a core type. */
  predicate HasCoreType(vars: seq<VarInfo>, id: nat) {
    id < |vars| && Classify(vars[id].ty.tokens).Some?
  }

  /**
   * `_set_if_uefi_core_type` for an instruction of a function with variable
   * table `vars`: only a store `*(c) = v` of a variable of a core type
   * matches; the symbol and the variable's type then go to `c`.
   */
  function SetIfUefiCoreType(vars: seq<VarInfo>, instr: Expr): (r: Option<GlobalMatch>)
    ensures r.Some? <==> IsGlobalStore(instr) && HasCoreType(vars, instr.src.id)
    ensures r.Some? ==> r.value.address == instr.dest.src.constant && r.value.ty == vars[instr.src.id].ty
    ensures r.Some? ==> CoreMatch(r.value.symbol, r.value.bootServices) == Classify(vars[instr.src.id].ty.tokens).value
  {
    match instr
    case Assign(Deref(ConstPtr(c)), Var(v)) =>
      if v >= |vars| then None
      else (match Classify(vars[v].ty.tokens)
       case None => None
       case Some(m) => Some(GlobalMatch(c, m.symbol, vars[v].ty, m.bootServices)))
    case _ => None
  }

  /** The matches of one instruction, as a list. */
  function MatchesOf(vars: seq<VarInfo>, instr: Expr): seq<GlobalMatch> {
    match SetIfUefiCoreType(vars, instr)
    case None => []
    case Some(m) => [m]
  }

  /** Phase B over the instructions of one function, in order. */
  function ResolveBody(vars: seq<VarInfo>, body: seq<Expr>): (r: seq<GlobalMatch>)
    ensures forall k | 0 <= k < |r| :: exists i | 0 <= i < |body| :: SetIfUefiCoreType(vars, body[i]) == Some(r[k])
    ensures forall i | 0 <= i < |body| && SetIfUefiCoreType(vars, body[i]).Some? ::
      SetIfUefiCoreType(vars, body[i]).value in r
  {
    var g := (instr: Expr) => MatchesOf(vars, instr);
    var r := Seqs.ConcatMap(g, body);
    Seqs.ConcatMapSound(g, body);
    assert forall i | 0 <= i < |body| && SetIfUefiCoreType(vars, body[i]).Some? ::
      SetIfUefiCoreType(vars, body[i]).value in r by {
      forall i | 0 <= i < |body| && SetIfUefiCoreType(vars, body[i]).Some?
        ensures SetIfUefiCoreType(vars, body[i]).value in r
      {
        Seqs.ConcatMapComplete(g, body, i, SetIfUefiCoreType(vars, body[i]).value);
      }
    }
    r
  }

  /** Phase B takes the instructions one after another. */
  lemma ResolveBodyStep(vars: seq<VarInfo>, body: seq<Expr>)
    ensures |body| == 0 ==> ResolveBody(vars, body) == []
    ensures |body| > 0 ==> ResolveBody(vars, body) == MatchesOf(vars, body[0]) + ResolveBody(vars, body[1..])
  {
  }

  /** The matches of one function. */
  function FunctionMatches(f: Function): seq<GlobalMatch> {
    ResolveBody(f.vars, f.body)
  }

  /** Phase B: every function's instructions, functions in order. */
  function SetGlobalVariables(fs: seq<Function>): (r: seq<GlobalMatch>)
    ensures forall k | 0 <= k < |r| :: exists j, i | 0 <= j < |fs| && 0 <= i < |fs[j].body| ::
      SetIfUefiCoreType(fs[j].vars, fs[j].body[i]) == Some(r[k])
    ensures forall j, i | 0 <= j < |fs| && 0 <= i < |fs[j].body| && SetIfUefiCoreType(fs[j].vars, fs[j].body[i]).Some? ::
      SetIfUefiCoreType(fs[j].vars, fs[j].body[i]).value in r
  {
    var r := Seqs.ConcatMap(FunctionMatches, fs);
    assert forall k | 0 <= k < |r| :: exists j, i | 0 <= j < |fs| && 0 <= i < |fs[j].body| ::
      SetIfUefiCoreType(fs[j].vars, fs[j].body[i]) == Some(r[k]) by {
      forall k | 0 <= k < |r|
        ensures exists j, i | 0 <= j < |fs| && 0 <= i < |fs[j].body| :: SetIfUefiCoreType(fs[j].vars, fs[j].body[i]) == Some(r[k])
      {
        MatchOrigin(fs, k);
      }
    }
    assert forall j, i | 0 <= j < |fs| && 0 <= i < |fs[j].body| && SetIfUefiCoreType(fs[j].vars, fs[j].body[i]).Some? ::
      SetIfUefiCoreType(fs[j].vars, fs[j].body[i]).value in r by {
      forall j, i | 0 <= j < |fs| && 0 <= i < |fs[j].body| && SetIfUefiCoreType(fs[j].vars, fs[j].body[i]).Some?
        ensures SetIfUefiCoreType(fs[j].vars, fs[j].body[i]).value in r
      {
        Seqs.ConcatMapComplete(FunctionMatches, fs, j, SetIfUefiCoreType(fs[j].vars, fs[j].body[i]).value);
      }
    }
    r
  }

  /** Where the `k`-th match of phase B comes from. */
  lemma MatchOrigin(fs: seq<Function>, k: nat)
    requires k < |Seqs.ConcatMap(FunctionMatches, fs)|
    ensures exists j, i | 0 <= j < |fs| && 0 <= i < |fs[j].body| ::
      SetIfUefiCoreType(fs[j].vars, fs[j].body[i]) == Some(Seqs.ConcatMap(FunctionMatches, fs)[k])
  {
    var r := Seqs.ConcatMap(FunctionMatches, fs);
    Seqs.ConcatMapSound(FunctionMatches, fs);
    var j :| 0 <= j < |fs| && r[k] in FunctionMatches(fs[j]);
    var ms := FunctionMatches(fs[j]);
    var m :| 0 <= m < |ms| && ms[m] == r[k];
    var i :| 0 <= i < |fs[j].body| && SetIfUefiCoreType(fs[j].vars, fs[j].body[i]) == Some(ms[m]);
  }

  /** `self.gbs_assignments` after phase B: the BootServices globals, in the order they were found. */
  function BootServicesAddresses(ms: seq<GlobalMatch>): (r: seq<int>)
    ensures |r| <= |ms|
    ensures forall a :: a in r <==> exists k | 0 <= k < |ms| :: ms[k].bootServices && ms[k].address == a
    decreases |ms|
  {
    if |ms| == 0 then []
    else (if ms[0].bootServices then [ms[0].address] else []) + BootServicesAddresses(ms[1..])
  }

  /** Appends happen in program order and duplicates are kept: the list of a concatenation is the concatenation. */
  lemma {:induction false} BootServicesAppend(a: seq<GlobalMatch>, b: seq<GlobalMatch>)
    ensures BootServicesAddresses(a + b) == BootServicesAddresses(a) + BootServicesAddresses(b)
    decreases |a|
  {
    if |a| == 0 {
      assert a + b == b;
    } else {
      assert (a + b)[0] == a[0];
      assert (a + b)[1..] == a[1..] + b;
      BootServicesAppend(a[1..], b);
    }
  }

  /** `instr` stores a variable typed as a pointer to `EFI_BOOT_SERVICES` into address `a`. */
  predicate BootServicesStore(vars: seq<VarInfo>, instr: Expr, a: int) {
    IsGlobalStore(instr) && instr.dest.src.constant == a && instr.src.id < |vars| &&
    |vars[instr.src.id].ty.tokens| == 2 && vars[instr.src.id].ty.tokens[0] == "EFI_BOOT_SERVICES"
  }

  /** Exactly the BootServices stores of some function put their address on the list. */
  lemma BootServicesFromStores(fs: seq<Function>, a: int)
    ensures a in BootServicesAddresses(SetGlobalVariables(fs)) <==>
      exists j, i | 0 <= j < |fs| && 0 <= i < |fs[j].body| :: BootServicesStore(fs[j].vars, fs[j].body[i], a)
  {
    if a in BootServicesAddresses(SetGlobalVariables(fs)) {
      BootServicesListedOnlyFromStores(fs, a);
    }
    if j, i :| 0 <= j < |fs| && 0 <= i < |fs[j].body| && BootServicesStore(fs[j].vars, fs[j].body[i], a) {
      BootServicesStoreListed(fs, j, i, a);
    }
  }

  lemma BootServicesListedOnlyFromStores(fs: seq<Function>, a: int)
    requires a in BootServicesAddresses(SetGlobalVariables(fs))
    ensures exists j, i | 0 <= j < |fs| && 0 <= i < |fs[j].body| :: BootServicesStore(fs[j].vars, fs[j].body[i], a)
  {
    var ms := SetGlobalVariables(fs);
    var k :| 0 <= k < |ms| && ms[k].bootServices && ms[k].address == a;
    var j, i :| 0 <= j < |fs| && 0 <= i < |fs[j].body| && SetIfUefiCoreType(fs[j].vars, fs[j].body[i]) == Some(ms[k]);
    var instr := fs[j].body[i];
    ClassifyBootServices(fs[j].vars[instr.src.id].ty.tokens);
    assert BootServicesStore(fs[j].vars, instr, a);
  }

  lemma BootServicesStoreListed(fs: seq<Function>, j: nat, i: nat, a: int)
    requires j < |fs| && i < |fs[j].body| && BootServicesStore(fs[j].vars, fs[j].body[i], a)
    ensures a in BootServicesAddresses(SetGlobalVariables(fs))
  {
    var m := SetIfUefiCoreType(fs[j].vars, fs[j].body[i]);
    ClassifyBootServices(fs[j].vars[fs[j].body[i].src.id].ty.tokens);
    assert m.Some? && m.value.bootServices && m.value.address == a;
    var ms := SetGlobalVariables(fs);
    assert m.value in ms;
  }

  /** The list over several functions is the lists of each function, in function order. */
  lemma BootServicesInFunctionOrder(fs: seq<Function>, gs: seq<Function>)
    ensures BootServicesAddresses(SetGlobalVariables(fs + gs)) ==
      BootServicesAddresses(SetGlobalVariables(fs)) + BootServicesAddresses(SetGlobalVariables(gs))
  {
    Seqs.ConcatMapAppend(FunctionMatches, fs, gs);
    BootServicesAppend(SetGlobalVariables(fs), SetGlobalVariables(gs));
  }

  /** Two stores of Boot Services to the same global are listed twice. */
  lemma DuplicateBootServicesKept(c: int, ty: VarType)
    ensures BootServicesAddresses([GlobalMatch(c, "gBS", ty, true), GlobalMatch(c, "gBS", ty, true)]) == [c, c]
  {
    var ms := [GlobalMatch(c, "gBS", ty, true), GlobalMatch(c, "gBS", ty, true)];
    assert ms[1..][1..] == [];
  }

  // ---------------------------------------------------------------------
  // Phase A: propagating argument types onto callee parameters

  /**
   * The parameter a callee has after one argument is considered: the
   * argument's variable (name and type) when the argument is a variable whose
   * type text contains `EFI_`, the old parameter otherwise.
   */
  function ParamAfter(callerVars: seq<VarInfo>, arg: Expr, prior: VarInfo): VarInfo {
    match arg
    case Var(v) => if v < |callerVars| && Text.Contains(callerVars[v].ty.text, "EFI_") then callerVars[v] else prior
    case _ => prior
  }

  /** The argument variables of a call are variables of the caller. */
  predicate ArgsWellFormed(args: seq<Expr>, n: nat) {
    forall k | 0 <= k < |args| :: ExprWellFormed(args[k], n)
  }

  /**
   * The loop of lines 204-210 from parameter `i` on, over the callee's
   * variable table. In a self-call the argument variables are the callee's
   * own, read as the loop updates them. `None` where `instr.params[i]`
   * raises because the call has too few arguments.
   */
  function PropagateVars(callerVars: seq<VarInfo>, selfCall: bool, calleeVars: seq<VarInfo>, arity: nat,
                         args: seq<Expr>, i: nat): (r: Option<seq<VarInfo>>)
    requires i <= arity <= |calleeVars|
    requires ArgsWellFormed(args, |callerVars|)
    requires selfCall ==> |calleeVars| == |callerVars|
    ensures r.None? <==> i < arity && |args| < arity
    ensures r.Some? ==> |r.value| == |calleeVars|
    ensures r.Some? ==> forall k | 0 <= k < |calleeVars| && !(i <= k < arity) :: r.value[k] == calleeVars[k]
    ensures r.Some? && !selfCall ==> forall k | i <= k < arity :: r.value[k] == ParamAfter(callerVars, args[k], calleeVars[k])
    decreases arity - i
  {
    if i == arity then Some(calleeVars)
    else if i >= |args| then None
    else
      var live := if selfCall then calleeVars else callerVars;
      var updated := calleeVars[i := ParamAfter(live, args[i], calleeVars[i])];
      PropagateVars(callerVars, selfCall, updated, arity, args, i + 1)
  }

  /**
   * In a self-call each parameter is decided against the table as the loop
   * has left it: the parameters before it already updated, the rest as given.
   */
  lemma {:induction false} PropagateVarsSelf(callerVars: seq<VarInfo>, calleeVars: seq<VarInfo>, arity: nat,
                                             args: seq<Expr>, i: nat)
    requires i <= arity <= |calleeVars| == |callerVars|
    requires ArgsWellFormed(args, |callerVars|)
    requires PropagateVars(callerVars, true, calleeVars, arity, args, i).Some?
    ensures var r := PropagateVars(callerVars, true, calleeVars, arity, args, i).value;
      forall k | i <= k < arity :: r[k] == ParamAfter(r[..k] + calleeVars[k..], args[k], calleeVars[k])
    decreases arity - i
  {
    if i < arity {
      var updated := calleeVars[i := ParamAfter(calleeVars, args[i], calleeVars[i])];
      var r := PropagateVars(callerVars, true, calleeVars, arity, args, i).value;
      assert r == PropagateVars(callerVars, true, updated, arity, args, i + 1).value;
      PropagateVarsSelf(callerVars, updated, arity, args, i + 1);
      assert r[i] == updated[i];
      assert r[..i] + calleeVars[i..] == calleeVars by {
        assert forall k | 0 <= k < i :: r[k] == calleeVars[k];
      }
      forall k | i + 1 <= k < arity
        ensures r[k] == ParamAfter(r[..k] + calleeVars[k..], args[k], calleeVars[k])
      {
        assert updated[k..] == calleeVars[k..];
      }
    }
  }

  /** Two function lists differ at most in their variable names and types. */
  predicate SameShape(fs: seq<Function>, gs: seq<Function>) {
    |fs| == |gs| &&
    forall j | 0 <= j < |fs| ::
      gs[j].start == fs[j].start && gs[j].extent == fs[j].extent && gs[j].arity == fs[j].arity &&
      gs[j].body == fs[j].body && |gs[j].vars| == |fs[j].vars|
  }

  lemma SameShapeWellFormed(fs: seq<Function>, gs: seq<Function>)
    requires SameShape(fs, gs) && AllWellFormed(fs)
    ensures AllWellFormed(gs)
  {
  }

  /** Function lists of the same shape have their functions at the same addresses. */
  lemma SameShapeFunctionAt(fs: seq<Function>, gs: seq<Function>, a: int)
    requires SameShape(fs, gs)
    ensures FunctionStartsAt(gs, a) <==> FunctionStartsAt(fs, a)
    ensures FunctionAt(gs, a) == FunctionAt(fs, a)
  {
    if FunctionStartsAt(fs, a) {
      var i :| 0 <= i < |fs| && fs[i].start == a;
      assert gs[i].start == a;
    }
    if FunctionStartsAt(gs, a) {
      var i :| 0 <= i < |gs| && gs[i].start == a;
      assert fs[i].start == a;
    }
  }

  /** The result of phase A so far: the updated functions, or where it raised. */
  datatype Propagation = Propagated(fs: seq<Function>) | Raised(failure: Failure)

  /** `Assign`/`AssignUnpack` are looked through to their source (lines 192-193). */
  function UnwrapAssign(instr: Expr): (r: Expr)
    ensures instr.Assign? || instr.AssignUnpack? ==> r == instr.src
    ensures !instr.Assign? && !instr.AssignUnpack? ==> r == instr
    ensures forall n: nat | ExprWellFormed(instr, n) :: ExprWellFormed(r, n)
  {
    if instr.Assign? || instr.AssignUnpack? then instr.src else instr
  }

  lemma UnwrapWellFormed(instr: Expr, n: nat)
    requires ExprWellFormed(instr, n)
    ensures ExprWellFormed(UnwrapAssign(instr), n)
  {
  }

  /** The call target of a direct call, looking through one assignment. */
  predicate IsDirectCall(instr: Expr) {
    var e := UnwrapAssign(instr);
    (e.Call? || e.TailCall?) && e.dest.ConstPtr?
  }

  /** The address a direct call goes to. */
  function CallTarget(instr: Expr): int
    requires IsDirectCall(instr)
  {
    UnwrapAssign(instr).dest.constant
  }

  /** No instruction of `body` is a direct call to `a`. */
  predicate Untargeted(body: seq<Expr>, a: int) {
    forall i | 0 <= i < |body| :: !(IsDirectCall(body[i]) && CallTarget(body[i]) == a)
  }

  /** `f` is an exception a direct call `instr` can raise: no function at its target, or too few arguments for it. */
  predicate RaisedBy(instr: Expr, f: Failure) {
    IsDirectCall(instr) && (f == NoFunctionAt(CallTarget(instr)) || f == TooFewArguments(CallTarget(instr)))
  }

  /**
   * The direct call `instr` raises against the functions `fs`: no function
   * starts at its target (`None.parameter_vars`), or it passes fewer
   * arguments than that function has parameters (`instr.params[i]`).
   */
  predicate CallFails(fs: seq<Function>, instr: Expr) {
    IsDirectCall(instr) &&
    (!FunctionStartsAt(fs, CallTarget(instr)) ||
     |UnwrapAssign(instr).params| < fs[FunctionAt(fs, CallTarget(instr)).value].arity)
  }

  /** The exception a failing call raises. */
  function CallFailure(fs: seq<Function>, instr: Expr): Failure
    requires CallFails(fs, instr)
  {
    if FunctionStartsAt(fs, CallTarget(instr)) then TooFewArguments(CallTarget(instr))
    else NoFunctionAt(CallTarget(instr))
  }

  /**
   * `_check_and_prop_types_on_call` for an instruction of function `caller`:
   * only a direct call (`Call`/`TailCall` to a `ConstPtr`) propagates; a
   * target with no function raises, and so does a call with fewer arguments
   * than the callee has parameters.
   */
  function CheckAndPropTypesOnCall(fs: seq<Function>, caller: nat, instr: Expr): (r: Propagation)
    requires caller < |fs| && AllWellFormed(fs)
    requires ExprWellFormed(instr, |fs[caller].vars|)
    ensures !IsDirectCall(instr) ==> r == Propagated(fs)
    ensures r.Raised? ==> RaisedBy(instr, r.failure)
    ensures IsDirectCall(instr) && !FunctionStartsAt(fs, CallTarget(instr)) ==>
      r == Raised(NoFunctionAt(CallTarget(instr)))
    ensures IsDirectCall(instr) && FunctionStartsAt(fs, CallTarget(instr)) ==>
      (r.Raised? <==> |UnwrapAssign(instr).params| < fs[FunctionAt(fs, CallTarget(instr)).value].arity)
    ensures r.Raised? <==> CallFails(fs, instr)
    ensures r.Raised? ==> r.failure == CallFailure(fs, instr)
    ensures r.Propagated? ==> SameShape(fs, r.fs)
    ensures r.Propagated? ==> forall m | 0 <= m < |fs| && Untargeted([instr], fs[m].start) :: r.fs[m] == fs[m]
  {
    UnwrapWellFormed(instr, |fs[caller].vars|);
    var e := UnwrapAssign(instr);
    if !(e.Call? || e.TailCall?) || !e.dest.ConstPtr? then Propagated(fs)
    else match FunctionAt(fs, e.dest.constant)
      case None => Raised(NoFunctionAt(e.dest.constant))
      case Some(j) =>
        var callee := fs[j];
        match PropagateVars(fs[caller].vars, j == caller, callee.vars, callee.arity, e.params, 0)
        case None => Raised(TooFewArguments(e.dest.constant))
        case Some(vars) =>
          var gs := fs[j := callee.(vars := vars)];
          assert SameShape(fs, gs);
          assert [instr][0] == instr && !Untargeted([instr], fs[j].start);
          Propagated(gs)
  }

  /** A direct call to a function other than the caller updates exactly that callee's parameters; `SelfCallEffect` covers a call to itself. */
  lemma PropagationEffect(fs: seq<Function>, caller: nat, instr: Expr, j: nat)
    requires caller < |fs| && AllWellFormed(fs)
    requires ExprWellFormed(instr, |fs[caller].vars|)
    requires IsDirectCall(instr) && FunctionAt(fs, CallTarget(instr)) == Some(j) && j != caller
    ensures CheckAndPropTypesOnCall(fs, caller, instr).Raised? <==> |UnwrapAssign(instr).params| < fs[j].arity
    ensures CheckAndPropTypesOnCall(fs, caller, instr).Propagated? ==>
      var gs := CheckAndPropTypesOnCall(fs, caller, instr).fs;
      (forall m | 0 <= m < |fs| && m != j :: gs[m] == fs[m]) &&
      (forall k | 0 <= k < fs[j].arity ::
        gs[j].vars[k] == ParamAfter(fs[caller].vars, UnwrapAssign(instr).params[k], fs[j].vars[k])) &&
      (forall k | fs[j].arity <= k < |fs[j].vars| :: gs[j].vars[k] == fs[j].vars[k])
  {
    UnwrapWellFormed(instr, |fs[caller].vars|);
  }

  /**
   * A direct call from a function to itself reads its argument variables
   * from its own table while the loop updates that table: parameter `k` is
   * decided against the parameters before it as already updated.
   */
  lemma SelfCallEffect(fs: seq<Function>, caller: nat, instr: Expr)
    requires caller < |fs| && AllWellFormed(fs)
    requires ExprWellFormed(instr, |fs[caller].vars|)
    requires IsDirectCall(instr) && FunctionAt(fs, CallTarget(instr)) == Some(caller)
    ensures CheckAndPropTypesOnCall(fs, caller, instr).Raised? <==> |UnwrapAssign(instr).params| < fs[caller].arity
    ensures CheckAndPropTypesOnCall(fs, caller, instr).Propagated? ==>
      var gs := CheckAndPropTypesOnCall(fs, caller, instr).fs;
      var vs := gs[caller].vars;
      (forall m | 0 <= m < |fs| && m != caller :: gs[m] == fs[m]) &&
      (forall k | 0 <= k < fs[caller].arity ::
        vs[k] == ParamAfter(vs[..k] + fs[caller].vars[k..], UnwrapAssign(instr).params[k], fs[caller].vars[k])) &&
      (forall k | fs[caller].arity <= k < |fs[caller].vars| :: vs[k] == fs[caller].vars[k])
  {
    UnwrapWellFormed(instr, |fs[caller].vars|);
    var f := fs[caller];
    var args := UnwrapAssign(instr).params;
    if PropagateVars(f.vars, true, f.vars, f.arity, args, 0).Some? {
      PropagateVarsSelf(f.vars, f.vars, f.arity, args, 0);
    }
  }

  /**
   * Phase A over the instructions of function `caller`, in order, reading
   * variable types as earlier calls left them.
   */
  function PropagateBody(fs: seq<Function>, caller: nat, body: seq<Expr>): (r: Propagation)
    requires caller < |fs| && AllWellFormed(fs)
    requires forall i | 0 <= i < |body| :: ExprWellFormed(body[i], |fs[caller].vars|)
    ensures r.Propagated? ==> SameShape(fs, r.fs)
    ensures (forall i | 0 <= i < |body| :: !IsDirectCall(body[i])) ==> r == Propagated(fs)
    ensures r.Raised? ==> exists i | 0 <= i < |body| :: RaisedBy(body[i], r.failure)
    ensures r.Propagated? ==> forall m | 0 <= m < |fs| && Untargeted(body, fs[m].start) :: r.fs[m] == fs[m]
    decreases |body|
  {
    if |body| == 0 then Propagated(fs)
    else match CheckAndPropTypesOnCall(fs, caller, body[0])
      case Raised(f) => Raised(f)
      case Propagated(gs) =>
        SameShapeWellFormed(fs, gs);
        assert forall i | 0 <= i < |body[1..]| :: body[1..][i] == body[i + 1];
        var r := PropagateBody(gs, caller, body[1..]);
        assert forall m | 0 <= m < |fs| && Untargeted(body, fs[m].start) ::
          Untargeted([body[0]], fs[m].start) && Untargeted(body[1..], gs[m].start);
        r
  }

  /**
   * Phase A: the entry function's instructions. An entry point with no
   * function raises, as `None.high_level_il` does.
   */
  function PropagateEntry(fs: seq<Function>, entry: int): (r: Propagation)
    requires AllWellFormed(fs)
    ensures !FunctionStartsAt(fs, entry) ==> r == Raised(NoFunctionAt(entry))
    ensures r.Propagated? ==> SameShape(fs, r.fs)
    ensures FunctionStartsAt(fs, entry) && r.Raised? ==>
      exists i | 0 <= i < |EntryBody(fs, entry)| :: RaisedBy(EntryBody(fs, entry)[i], r.failure)
    ensures FunctionStartsAt(fs, entry) && r.Propagated? ==>
      forall m | 0 <= m < |fs| && Untargeted(EntryBody(fs, entry), fs[m].start) :: r.fs[m] == fs[m]
  {
    match FunctionAt(fs, entry)
    case None => Raised(NoFunctionAt(entry))
    case Some(e) =>
      assert EntryBody(fs, entry) == fs[e].body;
      PropagateBody(fs, e, fs[e].body)
  }

  /** The instructions of the entry function. */
  function EntryBody(fs: seq<Function>, entry: int): seq<Expr>
    requires FunctionStartsAt(fs, entry)
  {
    fs[FunctionAt(fs, entry).value].body
  }

  /** Whether a call fails depends only on where functions start and on their arities. */
  lemma CallFailsSameShape(fs: seq<Function>, gs: seq<Function>, instr: Expr)
    requires SameShape(fs, gs)
    ensures CallFails(gs, instr) <==> CallFails(fs, instr)
    ensures CallFails(fs, instr) ==> CallFailure(gs, instr) == CallFailure(fs, instr)
  {
    if IsDirectCall(instr) {
      SameShapeFunctionAt(fs, gs, CallTarget(instr));
    }
  }

  /**
   * The exception of the first failing direct call of `body`, judged against
   * `fs`, or `None` when no call fails.
   */
  function FirstCallFailure(fs: seq<Function>, body: seq<Expr>): (r: Option<Failure>)
    ensures r.None? <==> forall i | 0 <= i < |body| :: !CallFails(fs, body[i])
    ensures r.Some? ==> exists i | 0 <= i < |body| ::
      CallFails(fs, body[i]) && (forall j | 0 <= j < i :: !CallFails(fs, body[j])) && r.value == CallFailure(fs, body[i])
    decreases |body|
  {
    if |body| == 0 then None
    else if CallFails(fs, body[0]) then Some(CallFailure(fs, body[0]))
    else
      var rest := body[1..];
      assert forall i | 0 <= i < |rest| :: rest[i] == body[i + 1];
      var r := FirstCallFailure(fs, rest);
      if r.Some? then
        var i :| 0 <= i < |rest| && CallFails(fs, rest[i]) && (forall j | 0 <= j < i :: !CallFails(fs, rest[j])) &&
          r.value == CallFailure(fs, rest[i]);
        assert CallFails(fs, body[i + 1]) && forall j | 0 <= j < i + 1 :: !CallFails(fs, body[j]);
        r
      else r
  }

  /** Functions of the same shape fail the same calls. */
  lemma {:induction false} FirstCallFailureSameShape(fs: seq<Function>, gs: seq<Function>, body: seq<Expr>)
    requires SameShape(fs, gs)
    ensures FirstCallFailure(gs, body) == FirstCallFailure(fs, body)
    decreases |body|
  {
    if |body| > 0 {
      CallFailsSameShape(fs, gs, body[0]);
      FirstCallFailureSameShape(fs, gs, body[1..]);
    }
  }

  /**
   * Phase A over a body raises exactly when one of its direct calls fails,
   * judged against the functions before the loop, and the exception is that
   * of the first failing call: the loop stops there.
   */
  lemma {:induction false} PropagateBodyRaises(fs: seq<Function>, caller: nat, body: seq<Expr>)
    requires caller < |fs| && AllWellFormed(fs)
    requires forall i | 0 <= i < |body| :: ExprWellFormed(body[i], |fs[caller].vars|)
    ensures FirstCallFailure(fs, body) ==
      (if PropagateBody(fs, caller, body).Raised? then Some(PropagateBody(fs, caller, body).failure) else None)
    decreases |body|
  {
    if |body| > 0 {
      match CheckAndPropTypesOnCall(fs, caller, body[0])
      case Raised(f) =>
      case Propagated(gs) =>
        SameShapeWellFormed(fs, gs);
        var rest := body[1..];
        assert forall i | 0 <= i < |rest| :: rest[i] == body[i + 1];
        PropagateBodyRaises(gs, caller, rest);
        FirstCallFailureSameShape(fs, gs, rest);
    }
  }

  /**
   * Phase A raises exactly when the entry function is missing or one of its
   * direct calls fails, with the exception of the first failing call.
   */
  lemma PropagateEntryRaises(fs: seq<Function>, entry: int)
    requires AllWellFormed(fs)
    ensures PropagateEntry(fs, entry).Raised? <==>
      !FunctionStartsAt(fs, entry) || FirstCallFailure(fs, EntryBody(fs, entry)).Some?
    ensures FunctionStartsAt(fs, entry) && PropagateEntry(fs, entry).Raised? ==>
      PropagateEntry(fs, entry).failure == FirstCallFailure(fs, EntryBody(fs, entry)).value
  {
    if FunctionStartsAt(fs, entry) {
      var e := FunctionAt(fs, entry).value;
      assert EntryBody(fs, entry) == fs[e].body;
      PropagateBodyRaises(fs, e, fs[e].body);
    }
  }

  /** What `_set_global_variables` leaves behind: the functions after phase A and the globals of phase B. */
  datatype Globals = Globals(functions: seq<Function>, matches: seq<GlobalMatch>)

  /** `_set_global_variables`: phase A on the entry function, then phase B on the updated functions. */
  function ResolveGlobals(fs: seq<Function>, entry: int): (r: Result)
    requires AllWellFormed(fs)
    ensures r.Failed? <==> PropagateEntry(fs, entry).Raised?
    ensures r.Done? ==> SameShape(fs, r.globals.functions) && AllWellFormed(r.globals.functions)
    ensures r.Done? ==> r.globals.matches == SetGlobalVariables(r.globals.functions)
  {
    match PropagateEntry(fs, entry)
    case Raised(f) => Failed(f)
    case Propagated(gs) =>
      SameShapeWellFormed(fs, gs);
      Done(Globals(gs, SetGlobalVariables(gs)))
  }

  // The situation phase A exists for: the entry point passes the system
  // table to an initialisation routine that stores its second parameter in
  // a global.

  const UntypedArgs: seq<VarInfo> := [VarInfo("arg1", VarType(["int64_t"], "int64_t")), VarInfo("arg2", VarType(["int64_t"], "int64_t"))]
  const InitCall: Expr := Call(ConstPtr(0x2000), [Var(0), Var(1)])
  const SampleEntry: Function := Function(0x1000, {0x1000}, 2, [ImageHandleVar, SystemTableVar], [InitCall])
  const SampleInit: Function := Function(0x2000, {0x2000}, 2, UntypedArgs, [Assign(Deref(ConstPtr(0x3000)), Var(1))])

  lemma SampleTypesAreUefi()
    ensures Text.Contains(ImageHandleVar.ty.text, "EFI_")
    ensures Text.Contains(SystemTableVar.ty.text, "EFI_")
  {
    assert Text.StartsWith(ImageHandleVar.ty.text, "EFI_");
    assert Text.StartsWith(SystemTableVar.ty.text, "EFI_");
  }

  lemma SampleCallCopiesBothParameters()
    ensures PropagateVars(SampleEntry.vars, false, UntypedArgs, 2, InitCall.params, 0) == Some([ImageHandleVar, SystemTableVar])
  {
    SampleTypesAreUefi();
    assert ParamAfter(SampleEntry.vars, Var(0), UntypedArgs[0]) == ImageHandleVar;
    assert ParamAfter(SampleEntry.vars, Var(1), UntypedArgs[1]) == SystemTableVar;
    var r := PropagateVars(SampleEntry.vars, false, UntypedArgs, 2, InitCall.params, 0);
    assert |InitCall.params| == 2 && |UntypedArgs| == 2;
    assert InitCall.params[0] == Var(0) && InitCall.params[1] == Var(1);
    assert r.Some? && |r.value| == 2;
    assert r.value[0] == ImageHandleVar && r.value[1] == SystemTableVar;
    assert r.value == [ImageHandleVar, SystemTableVar];
  }

  const SampleFunctions: seq<Function> := [SampleEntry, SampleInit]
  const TypedInit: Function := SampleInit.(vars := [ImageHandleVar, SystemTableVar])
  const SampleUpdated: seq<Function> := [SampleEntry, TypedInit]
  const SampleGlobal: GlobalMatch := GlobalMatch(0x3000, "gST", SystemTableVar.ty, false)

  lemma SampleWellFormed()
    ensures AllWellFormed(SampleFunctions)
  {
    assert WellFormed(SampleEntry) && WellFormed(SampleInit);
  }

  /** The call in the entry function gives the initialiser both parameter types. */
  lemma SampleCall()
    ensures AllWellFormed(SampleFunctions)
    ensures CheckAndPropTypesOnCall(SampleFunctions, 0, InitCall) == Propagated(SampleUpdated)
  {
    SampleWellFormed();
    assert FunctionAt(SampleFunctions, 0x2000) == Some(1);
    SampleCallCopiesBothParameters();
  }

  /** Phase A from the entry function reaches the initialiser through its one call. */
  lemma SamplePhaseA()
    ensures AllWellFormed(SampleFunctions)
    ensures PropagateEntry(SampleFunctions, 0x1000) == Propagated(SampleUpdated)
  {
    SampleCall();
    assert FunctionAt(SampleFunctions, 0x1000) == Some(0);
    assert SampleEntry.body[1..] == [];
  }

  /** The initialiser's store matches only once its parameter carries the system table type. */
  lemma SampleMatches()
    ensures FunctionMatches(SampleEntry) == []
    ensures FunctionMatches(SampleInit) == []
    ensures FunctionMatches(TypedInit) == [SampleGlobal]
  {
    SingleInstructionMatches(SampleEntry);
    SingleInstructionMatches(SampleInit);
    SingleInstructionMatches(TypedInit);
    assert SetIfUefiCoreType(SampleEntry.vars, InitCall).None?;
    assert SetIfUefiCoreType(TypedInit.vars, TypedInit.body[0]) == Some(SampleGlobal);
  }

  /** The matches of a one-instruction function are those of its instruction. */
  lemma SingleInstructionMatches(f: Function)
    requires |f.body| == 1
    ensures FunctionMatches(f) == MatchesOf(f.vars, f.body[0])
  {
    ResolveBodyStep(f.vars, f.body);
    assert f.body[1..] == [];
    ResolveBodyStep(f.vars, []);
  }

  /** Phase B over two functions is the matches of the first followed by those of the second. */
  lemma PairMatches(f: Function, g: Function)
    ensures SetGlobalVariables([f, g]) == FunctionMatches(f) + FunctionMatches(g)
  {
    Seqs.ConcatMapAppend(FunctionMatches, [f], [g]);
    Seqs.ConcatMapSingle(FunctionMatches, f);
    Seqs.ConcatMapSingle(FunctionMatches, g);
    assert [f] + [g] == [f, g];
  }

  /**
   * Before propagation the routine's parameter is untyped and no global is
   * found; after it, the store names `gST`.
   */
  lemma PropagationRevealsSystemTable()
    ensures AllWellFormed(SampleFunctions)
    ensures SetGlobalVariables(SampleFunctions) == []
    ensures ResolveGlobals(SampleFunctions, 0x1000) == Done(Globals(SampleUpdated, [SampleGlobal]))
  {
    SamplePhaseA();
    SampleMatches();
    PairMatches(SampleEntry, SampleInit);
    PairMatches(SampleEntry, TypedInit);
  }

  datatype Result = Done(globals: Globals) | Failed(failure: Failure)
}
