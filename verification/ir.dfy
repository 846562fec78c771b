/**
 * The host's view of a loaded UEFI image, as the plugin consumes it:
 * raw memory, segments, functions with their high-level IR, code
 * cross-references, and the annotations the passes ask the host to record.
 */
module Ir {
  import opened Wrappers
  import Guid

  /** A variable's declared type: its display tokens and its rendered text (`str(type)`). */
  datatype VarType = VarType(tokens: seq<string>, text: string)

  datatype VarInfo = VarInfo(name: string, ty: VarType)

  /**
   * High-level IR expressions. Only the operations the plugin inspects are
   * distinguished; every other operation is `Other`. A variable is an index
   * into its function's variable table. `DerefField` carries the text the
   * host renders for it (`str(instr.dest)`, e.g. `gBS->LocateProtocol`).
   */
  datatype Expr =
    | Assign(dest: Expr, src: Expr)
    | AssignUnpack(targets: seq<Expr>, src: Expr)
    | Call(dest: Expr, params: seq<Expr>)
    | TailCall(dest: Expr, params: seq<Expr>)
    | Deref(src: Expr)
    | DerefField(src: Expr, rendered: string)
    | ConstPtr(constant: int)
    | Var(id: nat)
    | Other

  /** Every variable `e` mentions is one of the first `n`. */
  predicate ExprWellFormed(e: Expr, n: nat) {
    match e
    case Assign(d, s) => ExprWellFormed(d, n) && ExprWellFormed(s, n)
    case AssignUnpack(ts, s) => (forall i | 0 <= i < |ts| :: ExprWellFormed(ts[i], n)) && ExprWellFormed(s, n)
    case Call(d, ps) => ExprWellFormed(d, n) && forall i | 0 <= i < |ps| :: ExprWellFormed(ps[i], n)
    case TailCall(d, ps) => ExprWellFormed(d, n) && forall i | 0 <= i < |ps| :: ExprWellFormed(ps[i], n)
    case Deref(s) => ExprWellFormed(s, n)
    case DerefField(s, _) => ExprWellFormed(s, n)
    case ConstPtr(_) => true
    case Var(id) => id < n
    case Other => true
  }

  /**
   * A function: its start address, the addresses it covers, its variables
   * (the first `arity` are its parameters, in order) and its top-level IR
   * instructions in block order.
   */
  datatype Function = Function(start: int, extent: set<int>, arity: nat, vars: seq<VarInfo>, body: seq<Expr>)

  predicate WellFormed(f: Function) {
    f.arity <= |f.vars| && forall i | 0 <= i < |f.body| :: ExprWellFormed(f.body[i], |f.vars|)
  }

  predicate AllWellFormed(fs: seq<Function>) {
    forall i | 0 <= i < |fs| :: WellFormed(fs[i])
  }

  /** A segment covers the addresses `[start, end)`. */
  datatype Segment = Segment(start: int, end: int)

  /**
   * The analysed image: mapped bytes, segments, functions (`bv.functions`,
   * in order), the entry point, the code references to each address, and
   * whether the view is a Terse Executable (`view_type == 'TE'`).
   */
  datatype Host = Host(
    mem: map<int, Guid.byte>,
    segments: seq<Segment>,
    functions: seq<Function>,
    entry: int,
    codeRefs: map<int, seq<int>>,
    terse: bool)

  /**
   * What a pass asks the host to record: a data symbol named `symbol` at
   * `address` and, when `dataVar` is present, a data variable of that type.
   */
  datatype Annotation = Annotation(address: int, symbol: string, dataVar: Option<VarType>)

  /**
   * Where the Python code raises and the background task stops:
   * `get_function_at` returning `None` for a called or entry address, an
   * entry function without parameter `index`, a call with fewer arguments
   * than its callee has parameters, a protocol call one argument short of its
   * highest index, and a GUID read at an unmapped address.
   */
  datatype Failure =
    | NoFunctionAt(address: int)
    | NoParameter(index: nat)
    | TooFewArguments(callee: int)
    | ArgumentIndexOutOfRange(index: nat)
    | UnmappedGuid(address: int)

  /** The entry point's parameters as the plugin declares them: `ImageHandle: EFI_HANDLE`, `SystemTable: EFI_SYSTEM_TABLE *`. */
  const ImageHandleVar: VarInfo := VarInfo("ImageHandle", VarType(["EFI_HANDLE"], "EFI_HANDLE"))
  const SystemTableVar: VarInfo := VarInfo("SystemTable", VarType(["EFI_SYSTEM_TABLE", "*"], "EFI_SYSTEM_TABLE*"))

  /** All 16 bytes from `a` on are mapped. */
  predicate Readable16(mem: map<int, Guid.byte>, a: int) {
    forall x | a <= x < a + 16 :: x in mem
  }

  /** The 16 bytes at `a`. */
  function Window(mem: map<int, Guid.byte>, a: int): (w: seq<Guid.byte>)
    requires Readable16(mem, a)
    ensures |w| == 16
    ensures forall k | 0 <= k < 16 :: w[k] == mem[a + k]
  {
    seq(16, k requires 0 <= k < 16 => mem[a + k])
  }

  /** The mapped bytes from `a` on, stopping after `n` or at the first unmapped address. */
  function ReadRun(mem: map<int, Guid.byte>, a: int, n: nat): (r: seq<Guid.byte>)
    ensures |r| <= n
    ensures forall x | a <= x < a + |r| :: x in mem
    ensures forall k | 0 <= k < |r| :: r[k] == mem[a + k]
    ensures |r| < n ==> a + |r| !in mem
    decreases n
  {
    if n == 0 || a !in mem then []
    else
      var t := ReadRun(mem, a + 1, n - 1);
      var r := [mem[a]] + t;
      assert forall k | 1 <= k < |r| :: r[k] == t[k - 1];
      r
  }

  /**
   * `BinaryReader.read(n)` after `seek(a)`: `None` when nothing at `a` is
   * mapped, otherwise the mapped bytes from `a` on, at most `n` of them.
   */
  function Read(mem: map<int, Guid.byte>, a: int, n: nat): (r: Option<seq<Guid.byte>>)
    ensures r.None? <==> a !in mem
    ensures r.Some? ==> |r.value| <= n
    ensures r.Some? ==> forall x | a <= x < a + |r.value| :: x in mem
    ensures r.Some? ==> forall k | 0 <= k < |r.value| :: r.value[k] == mem[a + k]
    ensures r.Some? && |r.value| < n ==> a + |r.value| !in mem
  {
    if a !in mem then None else Some(ReadRun(mem, a, n))
  }

  /** A 16-byte read is complete exactly when all 16 bytes are mapped, and then it is the window. */
  lemma ReadFull(mem: map<int, Guid.byte>, a: int)
    ensures (Read(mem, a, 16).Some? && |Read(mem, a, 16).value| == 16) <==> Readable16(mem, a)
    ensures Readable16(mem, a) ==> Read(mem, a, 16) == Some(Window(mem, a))
  {
    var r := Read(mem, a, 16);
    if r.Some? && |r.value| == 16 {
      assert Readable16(mem, a);
    }
    if Readable16(mem, a) {
      ReadWindow(mem, a);
    }
  }

  lemma ReadWindow(mem: map<int, Guid.byte>, a: int)
    requires Readable16(mem, a)
    ensures Read(mem, a, 16) == Some(Window(mem, a))
  {
    ReadRunMapped(mem, a, 16);
    var w, v := ReadRun(mem, a, 16), Window(mem, a);
    assert forall k | 0 <= k < 16 :: w[k] == v[k];
    assert w == v;
    assert a in mem;
  }

  /** Where every address is mapped, the run is as long as asked for. */
  lemma {:induction false} ReadRunMapped(mem: map<int, Guid.byte>, a: int, n: nat)
    requires forall x | a <= x < a + n :: x in mem
    ensures |ReadRun(mem, a, n)| == n
    decreases n
  {
    if n > 0 {
      ReadRunMapped(mem, a + 1, n - 1);
    }
  }

  /** The byte of `b` placed at address `x`. */
  function PlacedByte(b: seq<Guid.byte>, at: int, x: int): Guid.byte
    requires at <= x < at + |b|
  {
    b[x - at]
  }

  /** Memory holding `b` from `at` on and nothing else. */
  function Placed(b: seq<Guid.byte>, at: int): map<int, Guid.byte> {
    map x | at <= x < at + |b| :: PlacedByte(b, at, x)
  }

  /** In memory holding only 16 bytes, the one full window is where they start, and it reads them back. */
  lemma PlacedWindows(b: seq<Guid.byte>, at: int, a: int)
    requires |b| == 16
    ensures Readable16(Placed(b, at), a) <==> a == at
    ensures a == at ==> Window(Placed(b, at), a) == b
  {
    var mem := Placed(b, at);
    if a != at {
      if a < at {
        assert a !in mem;
      } else {
        assert a + 15 !in mem;
      }
    } else {
      assert Window(mem, a) == b;
    }
  }

  /** `get_functions_at(a) != []`: some function starts at `a`. */
  predicate FunctionStartsAt(fs: seq<Function>, a: int) {
    exists i | 0 <= i < |fs| :: fs[i].start == a
  }

  /** `get_function_at(a)`: the first function starting at `a`. */
  function FunctionAt(fs: seq<Function>, a: int): (r: Option<nat>)
    ensures r.None? <==> !FunctionStartsAt(fs, a)
    ensures r.Some? ==> r.value < |fs| && fs[r.value].start == a
    ensures r.Some? ==> forall j | 0 <= j < r.value :: fs[j].start != a
    decreases |fs|
  {
    if |fs| == 0 then None
    else if fs[0].start == a then Some(0)
    else match FunctionAt(fs[1..], a)
      case None => None
      case Some(i) => Some(i + 1)
  }

  /** `get_functions_containing(a)`: the functions covering `a`, in order. */
  function FunctionsContaining(fs: seq<Function>, a: int): (r: seq<Function>)
    ensures forall k | 0 <= k < |r| :: a in r[k].extent
    ensures forall k | 0 <= k < |r| :: r[k] in fs
    ensures |r| == 0 <==> forall i | 0 <= i < |fs| :: a !in fs[i].extent
    decreases |fs|
  {
    if |fs| == 0 then []
    else if a in fs[0].extent then [fs[0]] + FunctionsContaining(fs[1..], a)
    else FunctionsContaining(fs[1..], a)
  }

  /** `get_code_refs(a)`: addresses of the code referring to `a`. */
  function CodeRefs(h: Host, a: int): seq<int> {
    if a in h.codeRefs then h.codeRefs[a] else []
  }
}
