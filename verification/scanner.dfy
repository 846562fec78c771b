/**
 * The signature scanner: `_find_known_guids` (helper.py:122-135) and
 * `_apply_guid_name_if_data` (helper.py:89-105). Every address of every
 * segment is tried; a full 16-byte window equal to a known GUID is named
 * `g<Name>` and typed `EFI_GUID` unless a function starts there.
 */
module Scanner {
  import opened Wrappers
  import Guid
  import opened Ir
  import KnowledgeBase

  /** The type `parse_type_string("EFI_GUID")` yields. */
  const GuidType: VarType := VarType(["EFI_GUID"], "EFI_GUID")

  /** `_apply_guid_name_if_data`: nothing over code, else the `g<Name>` symbol and an `EFI_GUID` variable. */
  function ApplyGuidNameIfData(fs: seq<Function>, name: string, a: int): seq<Annotation> {
    if FunctionStartsAt(fs, a) then [] else [Annotation(a, "g" + name, Some(GuidType))]
  }

  /**
   * The name the knowledge base gives the full window at `a`, if that name is
   * non-empty: both the scanner and `_name_proto_from_guid` skip an empty name.
   */
  function KnownName(kb: KnowledgeBase.Base, mem: map<int, Guid.byte>, a: int): Option<string>
    requires Readable16(mem, a)
  {
    match KnowledgeBase.LookupName(kb, Window(mem, a))
    case Some(n) => if n == "" then None else Some(n)
    case None => None
  }

  /**
   * The scanner names address `a` exactly when all 16 bytes from `a` are
   * mapped, they equal the bytes of a known GUID with a non-empty name, and
   * no function starts at `a`.
   */
  predicate Emits(kb: KnowledgeBase.Base, h: Host, a: int) {
    Readable16(h.mem, a) && KnownName(kb, h.mem, a).Some? && !FunctionStartsAt(h.functions, a)
  }

  /** The annotation the scanner makes at `a`. */
  function GuidAnnotationAt(kb: KnowledgeBase.Base, h: Host, a: int): Annotation
    requires Emits(kb, h, a)
  {
    Annotation(a, "g" + KnownName(kb, h.mem, a).value, Some(GuidType))
  }

  /**
   * One iteration of the inner loop (lines 126-135): read 16 bytes at `a`,
   * skip a short or empty read, look the bytes up and, on a hit with a
   * truthy name, apply it.
   */
  function Probe(kb: KnowledgeBase.Base, h: Host, a: int): (r: seq<Annotation>)
    ensures |r| <= 1
    ensures |r| == 1 <==> Emits(kb, h, a)
    ensures |r| == 1 ==> r[0] == GuidAnnotationAt(kb, h, a)
  {
    ReadFull(h.mem, a);
    match Read(h.mem, a, 16)
    case None => []
    case Some(data) =>
      if |data| != 16 then []
      else match KnowledgeBase.LookupName(kb, data)
        case None => []
        case Some(name) => if name == "" then [] else ApplyGuidNameIfData(h.functions, name, a)
  }

  /** A probe yields at most one annotation, and only at the address it is given. */
  ghost predicate ProbeShape(probe: int -> seq<Annotation>) {
    forall a :: |probe(a)| <= 1 && (|probe(a)| == 1 ==> probe(a)[0].address == a)
  }

  /** The concatenation of `probe(a)` for `a` in `[lo, hi)`. */
  function Collect(probe: int -> seq<Annotation>, lo: int, hi: int): (r: seq<Annotation>)
    decreases hi - lo
  {
    if lo >= hi then [] else probe(lo) + Collect(probe, lo + 1, hi)
  }

  /** Every collected annotation is the probe's result at an address of the range. */
  lemma {:induction false} CollectSound(probe: int -> seq<Annotation>, lo: int, hi: int)
    requires ProbeShape(probe)
    ensures forall k | 0 <= k < |Collect(probe, lo, hi)| ::
      lo <= Collect(probe, lo, hi)[k].address < hi && probe(Collect(probe, lo, hi)[k].address) == [Collect(probe, lo, hi)[k]]
    decreases hi - lo
  {
    if lo < hi {
      CollectSound(probe, lo + 1, hi);
      var p, rest := probe(lo), Collect(probe, lo + 1, hi);
      var r := Collect(probe, lo, hi);
      assert r == p + rest;
      forall k | 0 <= k < |r|
        ensures lo <= r[k].address < hi && probe(r[k].address) == [r[k]]
      {
        if k < |p| {
          assert r[k] == p[0];
        } else {
          assert r[k] == rest[k - |p|];
        }
      }
    }
  }

  /** Every address of the range where the probe yields something is collected. */
  lemma {:induction false} CollectComplete(probe: int -> seq<Annotation>, lo: int, hi: int, a: int)
    requires ProbeShape(probe)
    requires lo <= a < hi && |probe(a)| == 1
    ensures exists k | 0 <= k < |Collect(probe, lo, hi)| :: Collect(probe, lo, hi)[k].address == a
    decreases hi - lo
  {
    var p, rest := probe(lo), Collect(probe, lo + 1, hi);
    var r := Collect(probe, lo, hi);
    assert r == p + rest;
    if a == lo {
      assert r[0] == p[0];
    } else {
      CollectComplete(probe, lo + 1, hi, a);
      var k :| 0 <= k < |rest| && rest[k].address == a;
      assert r[|p| + k] == rest[k];
    }
  }

  /** The collected annotations are in strictly increasing address order. */
  lemma {:induction false} CollectOrdered(probe: int -> seq<Annotation>, lo: int, hi: int)
    requires ProbeShape(probe)
    ensures forall j, k | 0 <= j < k < |Collect(probe, lo, hi)| ::
      Collect(probe, lo, hi)[j].address < Collect(probe, lo, hi)[k].address
    decreases hi - lo
  {
    if lo < hi {
      CollectOrdered(probe, lo + 1, hi);
      CollectSound(probe, lo + 1, hi);
      var p, rest := probe(lo), Collect(probe, lo + 1, hi);
      var r := Collect(probe, lo, hi);
      assert r == p + rest;
      forall j, k | 0 <= j < k < |r|
        ensures r[j].address < r[k].address
      {
        if j < |p| {
          assert r[j].address == lo;
          assert r[k] == rest[k - |p|];
        } else {
          assert r[j] == rest[j - |p|] && r[k] == rest[k - |p|];
        }
      }
    }
  }

  /** The scanner's probe for a knowledge base and a host. */
  function ProbeAt(kb: KnowledgeBase.Base, h: Host): int -> seq<Annotation> {
    (a: int) => Probe(kb, h, a)
  }

  lemma ProbeAtShape(kb: KnowledgeBase.Base, h: Host)
    ensures ProbeShape(ProbeAt(kb, h))
  {
    forall a
      ensures |ProbeAt(kb, h)(a)| <= 1 && (|ProbeAt(kb, h)(a)| == 1 ==> ProbeAt(kb, h)(a)[0].address == a)
    {
      assert ProbeAt(kb, h)(a) == Probe(kb, h, a);
    }
  }

  /** The probe yields an annotation exactly where the scanner emits, and then it yields the scanner's annotation. */
  lemma ProbeAtEmits(kb: KnowledgeBase.Base, h: Host, a: int)
    ensures |ProbeAt(kb, h)(a)| == 1 <==> Emits(kb, h, a)
    ensures Emits(kb, h, a) ==> ProbeAt(kb, h)(a) == [GuidAnnotationAt(kb, h, a)]
  {
    assert ProbeAt(kb, h)(a) == Probe(kb, h, a);
  }

  /** A range where the probe yields nothing collects nothing. */
  lemma {:induction false} CollectNothing(probe: int -> seq<Annotation>, lo: int, hi: int)
    requires forall a | lo <= a < hi :: probe(a) == []
    ensures Collect(probe, lo, hi) == []
    decreases hi - lo
  {
    if lo < hi {
      CollectNothing(probe, lo + 1, hi);
    }
  }

  /** A range where the scanner never emits yields nothing. */
  lemma ScanRangeNothing(kb: KnowledgeBase.Base, h: Host, lo: int, hi: int)
    requires forall a | lo <= a < hi :: !Emits(kb, h, a)
    ensures ScanRange(kb, h, lo, hi) == []
  {
    var probe := ProbeAt(kb, h);
    forall a | lo <= a < hi
      ensures probe(a) == []
    {
      ProbeAtEmits(kb, h, a);
    }
    CollectNothing(probe, lo, hi);
  }

  /** `for i in range(lo, hi)`: the annotations of the addresses `[lo, hi)`, in address order. */
  function ScanRange(kb: KnowledgeBase.Base, h: Host, lo: int, hi: int): (r: seq<Annotation>)
    ensures forall k | 0 <= k < |r| ::
      lo <= r[k].address < hi && Emits(kb, h, r[k].address) && r[k] == GuidAnnotationAt(kb, h, r[k].address)
    ensures forall a | lo <= a < hi && Emits(kb, h, a) :: exists k | 0 <= k < |r| :: r[k].address == a
    ensures forall j, k | 0 <= j < k < |r| :: r[j].address < r[k].address
  {
    var probe := ProbeAt(kb, h);
    ProbeAtShape(kb, h);
    CollectSound(probe, lo, hi);
    CollectOrdered(probe, lo, hi);
    var r := Collect(probe, lo, hi);
    assert forall k | 0 <= k < |r| ::
      lo <= r[k].address < hi && Emits(kb, h, r[k].address) && r[k] == GuidAnnotationAt(kb, h, r[k].address) by {
      forall k | 0 <= k < |r|
        ensures Emits(kb, h, r[k].address) && r[k] == GuidAnnotationAt(kb, h, r[k].address)
      {
        ProbeAtEmits(kb, h, r[k].address);
      }
    }
    assert forall a | lo <= a < hi && Emits(kb, h, a) :: exists k | 0 <= k < |r| :: r[k].address == a by {
      forall a | lo <= a < hi && Emits(kb, h, a)
        ensures exists k | 0 <= k < |r| :: r[k].address == a
      {
        ProbeAtEmits(kb, h, a);
        CollectComplete(probe, lo, hi, a);
      }
    }
    r
  }

  /** `a` lies in one of `segs`. */
  predicate InSegments(segs: seq<Segment>, a: int) {
    exists i | 0 <= i < |segs| :: segs[i].start <= a < segs[i].end
  }

  /** The outer loop over segments, in segment order: `Collect` over each segment's range in turn. */
  function CollectSegments(probe: int -> seq<Annotation>, segs: seq<Segment>): seq<Annotation>
    decreases |segs|
  {
    if |segs| == 0 then []
    else Collect(probe, segs[0].start, segs[0].end) + CollectSegments(probe, segs[1..])
  }

  /** Each annotation collected over the segments is the probe's result at an address of some segment. */
  lemma {:induction false} CollectSegmentsSound(probe: int -> seq<Annotation>, segs: seq<Segment>)
    requires ProbeShape(probe)
    ensures forall k | 0 <= k < |CollectSegments(probe, segs)| ::
      InSegments(segs, CollectSegments(probe, segs)[k].address) &&
      probe(CollectSegments(probe, segs)[k].address) == [CollectSegments(probe, segs)[k]]
    decreases |segs|
  {
    if |segs| > 0 {
      CollectSegmentsSound(probe, segs[1..]);
      CollectSound(probe, segs[0].start, segs[0].end);
      var first := Collect(probe, segs[0].start, segs[0].end);
      var rest := CollectSegments(probe, segs[1..]);
      var r := CollectSegments(probe, segs);
      assert r == first + rest;
      forall k | 0 <= k < |r|
        ensures InSegments(segs, r[k].address) && probe(r[k].address) == [r[k]]
      {
        if k < |first| {
          assert r[k] == first[k];
          assert segs[0].start <= r[k].address < segs[0].end;
        } else {
          assert r[k] == rest[k - |first|];
          var i :| 0 <= i < |segs[1..]| && segs[1..][i].start <= r[k].address < segs[1..][i].end;
          assert segs[i + 1] == segs[1..][i];
        }
      }
    }
  }

  /** Every address of segment `i` where the probe yields something is collected. */
  lemma {:induction false} CollectSegmentsComplete(probe: int -> seq<Annotation>, segs: seq<Segment>, i: nat, a: int)
    requires ProbeShape(probe)
    requires i < |segs| && segs[i].start <= a < segs[i].end && |probe(a)| == 1
    ensures exists k | 0 <= k < |CollectSegments(probe, segs)| :: CollectSegments(probe, segs)[k].address == a
    decreases |segs|
  {
    var first := Collect(probe, segs[0].start, segs[0].end);
    var rest := CollectSegments(probe, segs[1..]);
    var r := CollectSegments(probe, segs);
    assert r == first + rest;
    if i == 0 {
      CollectComplete(probe, segs[0].start, segs[0].end, a);
      var k :| 0 <= k < |first| && first[k].address == a;
      assert r[k] == first[k];
    } else {
      assert segs[1..][i - 1] == segs[i];
      CollectSegmentsComplete(probe, segs[1..], i - 1, a);
      var k :| 0 <= k < |rest| && rest[k].address == a;
      assert r[|first| + k] == rest[k];
    }
  }

  /** The `k`-th annotation collected over the host's segments is the scanner's annotation at an address of a segment. */
  lemma SegmentsEmitted(kb: KnowledgeBase.Base, h: Host, k: nat)
    requires k < |CollectSegments(ProbeAt(kb, h), h.segments)|
    ensures var x := CollectSegments(ProbeAt(kb, h), h.segments)[k];
      InSegments(h.segments, x.address) && Emits(kb, h, x.address) && x == GuidAnnotationAt(kb, h, x.address) &&
      x.dataVar == Some(GuidType) && |x.symbol| > 0 && x.symbol[0] == 'g'
  {
    ProbeAtShape(kb, h);
    CollectSegmentsSound(ProbeAt(kb, h), h.segments);
    ProbeAtEmits(kb, h, CollectSegments(ProbeAt(kb, h), h.segments)[k].address);
  }

  /** `_find_known_guids`: the scan over every segment of the image. */
  function FindKnownGuids(kb: KnowledgeBase.Base, h: Host): (r: seq<Annotation>)
    ensures forall k | 0 <= k < |r| ::
      InSegments(h.segments, r[k].address) && Emits(kb, h, r[k].address) && r[k] == GuidAnnotationAt(kb, h, r[k].address)
    ensures forall k | 0 <= k < |r| :: r[k].dataVar == Some(GuidType) && |r[k].symbol| > 0 && r[k].symbol[0] == 'g'
    ensures forall a | InSegments(h.segments, a) && Emits(kb, h, a) :: exists k | 0 <= k < |r| :: r[k].address == a
  {
    var probe := ProbeAt(kb, h);
    ProbeAtShape(kb, h);
    var r := CollectSegments(probe, h.segments);
    assert forall k | 0 <= k < |r| ::
      InSegments(h.segments, r[k].address) && Emits(kb, h, r[k].address) && r[k] == GuidAnnotationAt(kb, h, r[k].address) &&
      r[k].dataVar == Some(GuidType) && |r[k].symbol| > 0 && r[k].symbol[0] == 'g' by {
      forall k | 0 <= k < |r|
        ensures InSegments(h.segments, r[k].address) && Emits(kb, h, r[k].address) && r[k] == GuidAnnotationAt(kb, h, r[k].address)
        ensures r[k].dataVar == Some(GuidType) && |r[k].symbol| > 0 && r[k].symbol[0] == 'g'
      {
        SegmentsEmitted(kb, h, k);
      }
    }
    assert forall a | InSegments(h.segments, a) && Emits(kb, h, a) :: exists k | 0 <= k < |r| :: r[k].address == a by {
      forall a | InSegments(h.segments, a) && Emits(kb, h, a)
        ensures exists k | 0 <= k < |r| :: r[k].address == a
      {
        var i :| 0 <= i < |h.segments| && h.segments[i].start <= a < h.segments[i].end;
        ProbeAtEmits(kb, h, a);
        CollectSegmentsComplete(probe, h.segments, i, a);
      }
    }
    r
  }

  /** Probes that agree on a range collect the same annotations there. */
  lemma {:induction false} CollectAgree(p: int -> seq<Annotation>, q: int -> seq<Annotation>, lo: int, hi: int)
    requires forall a | lo <= a < hi :: p(a) == q(a)
    ensures Collect(p, lo, hi) == Collect(q, lo, hi)
    decreases hi - lo
  {
    if lo < hi {
      CollectAgree(p, q, lo + 1, hi);
    }
  }

  /** Probes that agree everywhere collect the same annotations over any segments. */
  lemma {:induction false} CollectSegmentsAgree(p: int -> seq<Annotation>, q: int -> seq<Annotation>, segs: seq<Segment>)
    requires forall a :: p(a) == q(a)
    ensures CollectSegments(p, segs) == CollectSegments(q, segs)
    decreases |segs|
  {
    if |segs| > 0 {
      CollectAgree(p, q, segs[0].start, segs[0].end);
      CollectSegmentsAgree(p, q, segs[1..]);
    }
  }

  /**
   * The scan looks at the functions only for where they start: replacing
   * them by functions starting at the same addresses (parameters renamed or
   * retyped, say) leaves its result unchanged.
   */
  lemma FindKnownGuidsStarts(kb: KnowledgeBase.Base, h: Host, fs: seq<Function>)
    requires forall a :: FunctionStartsAt(fs, a) <==> FunctionStartsAt(h.functions, a)
    ensures FindKnownGuids(kb, h.(functions := fs)) == FindKnownGuids(kb, h)
  {
    var g := h.(functions := fs);
    forall a
      ensures ProbeAt(kb, g)(a) == ProbeAt(kb, h)(a)
    {
      ProbeAtEmits(kb, g, a);
      ProbeAtEmits(kb, h, a);
      assert ProbeAt(kb, g)(a) == Probe(kb, g, a);
      assert ProbeAt(kb, h)(a) == Probe(kb, h, a);
      assert Emits(kb, g, a) <==> Emits(kb, h, a);
    }
    CollectSegmentsAgree(ProbeAt(kb, g), ProbeAt(kb, h), h.segments);
  }

  /** An image without segments has no GUID annotations. */
  lemma NoSegmentsNoGuids(kb: KnowledgeBase.Base, h: Host)
    requires h.segments == []
    ensures FindKnownGuids(kb, h) == []
  {
  }

  /** The host of the lone-GUID situation: one segment `[0x100, 0x120)`. */
  function LoneGuidHost(b: seq<Guid.byte>, fs: seq<Function>): Host
    requires |b| == 16
  {
    Host(Placed(b, 0x100), [Segment(0x100, 0x120)], fs, 0, map[], false)
  }

  lemma LoneGuidEmits(b: seq<Guid.byte>, fs: seq<Function>, a: int)
    requires |b| == 16
    ensures Emits([("TestGuid", b)], LoneGuidHost(b, fs), a) <==> a == 0x100 && !FunctionStartsAt(fs, 0x100)
    ensures Emits([("TestGuid", b)], LoneGuidHost(b, fs), a) ==>
      GuidAnnotationAt([("TestGuid", b)], LoneGuidHost(b, fs), a) == Annotation(0x100, "gTestGuid", Some(GuidType))
  {
    PlacedWindows(b, 0x100, a);
    if a == 0x100 {
      assert KnowledgeBase.LookupName([("TestGuid", b)], b) == Some("TestGuid");
    }
  }

  /** Annotations all equal to one, at strictly increasing addresses, are at most one. */
  lemma AtMostOne(r: seq<Annotation>, ann: Annotation)
    requires forall k | 0 <= k < |r| :: r[k] == ann
    requires forall j, k | 0 <= j < k < |r| :: r[j].address < r[k].address
    ensures |r| <= 1
  {
    assert |r| >= 2 ==> r[0].address < r[1].address;
  }

  lemma OneSegment(kb: KnowledgeBase.Base, h: Host)
    requires |h.segments| == 1
    ensures FindKnownGuids(kb, h) == ScanRange(kb, h, h.segments[0].start, h.segments[0].end)
  {
    assert h.segments[1..] == [];
    assert CollectSegments(ProbeAt(kb, h), h.segments[1..]) == [];
  }

  lemma LoneGuidScan(b: seq<Guid.byte>, fs: seq<Function>)
    requires |b| == 16
    ensures forall k | 0 <= k < |ScanRange([("TestGuid", b)], LoneGuidHost(b, fs), 0x100, 0x120)| ::
      ScanRange([("TestGuid", b)], LoneGuidHost(b, fs), 0x100, 0x120)[k] == Annotation(0x100, "gTestGuid", Some(GuidType))
  {
    var r := ScanRange([("TestGuid", b)], LoneGuidHost(b, fs), 0x100, 0x120);
    forall k | 0 <= k < |r|
      ensures r[k] == Annotation(0x100, "gTestGuid", Some(GuidType))
    {
      LoneGuidEmits(b, fs, r[k].address);
    }
  }

  /** A known GUID alone in a segment is named once, at its address. */
  lemma LoneGuidNamed(b: seq<Guid.byte>, fs: seq<Function>)
    requires |b| == 16 && !FunctionStartsAt(fs, 0x100)
    ensures FindKnownGuids([("TestGuid", b)], LoneGuidHost(b, fs)) == [Annotation(0x100, "gTestGuid", Some(GuidType))]
  {
    var kb := [("TestGuid", b)];
    var h := LoneGuidHost(b, fs);
    var scan := ScanRange(kb, h, 0x100, 0x120);
    OneSegment(kb, h);
    LoneGuidScan(b, fs);
    AtMostOne(scan, Annotation(0x100, "gTestGuid", Some(GuidType)));
    LoneGuidEmits(b, fs, 0x100);
    assert exists k | 0 <= k < |scan| :: scan[k].address == 0x100;
  }

  /** The same GUID is not named when a function starts at its address. */
  lemma LoneGuidOverCodeIgnored(b: seq<Guid.byte>, fs: seq<Function>)
    requires |b| == 16 && FunctionStartsAt(fs, 0x100)
    ensures FindKnownGuids([("TestGuid", b)], LoneGuidHost(b, fs)) == []
  {
    var kb := [("TestGuid", b)];
    var h := LoneGuidHost(b, fs);
    OneSegment(kb, h);
    forall a | 0x100 <= a < 0x120
      ensures !Emits(kb, h, a)
    {
      LoneGuidEmits(b, fs, a);
    }
    ScanRangeNothing(kb, h, 0x100, 0x120);
  }
}
