/**
 * The GUID knowledge base of `_load_guids` (helper.py:71-87) and its reverse
 * lookup `_check_guid_and_get_name` (helper.py:107-119).
 *
 * The table is the already tokenised CSV: a sequence of (GUID text, name)
 * rows. Loading goes through two Python dicts: `dict(reader)` keyed by GUID
 * text, then a dict keyed by name holding `bytes_le`. Both keep the last value
 * written for a key at the position where the key first appeared.
 */
module KnowledgeBase {
  import opened Wrappers
  import opened OrderedDict
  import Guid

  /** Rows of (GUID text, name). */
  type Table = seq<(string, string)>

  /** Name to 16 `bytes_le` bytes, in dict order. */
  type Base = Dict<string, seq<Guid.byte>>

  predicate WellSized(kb: Base) {
    forall i | 0 <= i < |kb| :: |kb[i].1| == 16
  }

  /**
   * The loop of lines 84-85 before any assignment: every (GUID text, name)
   * item becomes (name, `parse(text)`), and one text `parse` rejects aborts
   * the load. `Load` passes `Guid.Parse`.
   */
  function ConvertItems(items: Dict<string, string>, parse: string -> Option<seq<Guid.byte>>)
    : (r: Option<seq<(string, seq<Guid.byte>)>>)
    ensures r.None? <==> exists i | 0 <= i < |items| :: parse(items[i].0).None?
    ensures r.Some? ==> |r.value| == |items|
    ensures r.Some? ==> forall i | 0 <= i < |items| ::
      r.value[i].0 == items[i].1 && parse(items[i].0) == Some(r.value[i].1)
    decreases |items|
  {
    if |items| == 0 then Some([])
    else match parse(items[0].0)
      case None => None
      case Some(b) =>
        match ConvertItems(items[1..], parse)
        case None => None
        case Some(rest) => Some([(items[0].1, b)] + rest)
  }

  /** `_load_guids`: `None` where `uuid.UUID` raises on some GUID text. */
  function Load(table: Table): (r: Option<Base>)
    ensures r.Some? ==> KeysUnique(r.value) && WellSized(r.value)
  {
    match ConvertItems(FromPairs(table), Guid.Parse)
    case None => None
    case Some(items) =>
      FromPairsValues(items, (b: seq<Guid.byte>) => |b| == 16);
      Some(FromPairs(items))
  }

  /** No two rows share a name. */
  predicate NamesUnique(table: Table) {
    forall i, j | 0 <= i < j < |table| :: table[i].1 != table[j].1
  }

  /**
   * A table whose GUID texts and names are all distinct and all convert
   * loads row by row: the `i`-th entry is the `i`-th row's name with its
   * GUID's `bytes_le`.
   */
  lemma LoadDistinct(table: Table)
    requires KeysUnique(table) && NamesUnique(table)
    requires forall i | 0 <= i < |table| :: Guid.Parse(table[i].0).Some?
    ensures Load(table).Some?
    ensures |Load(table).value| == |table|
    ensures forall i | 0 <= i < |table| :: Load(table).value[i] == (table[i].1, Guid.Parse(table[i].0).value)
  {
    FromPairsDistinct(table);
    var items := ConvertItems(table, Guid.Parse);
    assert items.Some?;
    assert forall i | 0 <= i < |table| :: items.value[i] == (table[i].1, Guid.Parse(table[i].0).value);
    assert KeysUnique(items.value);
    FromPairsDistinct(items.value);
  }

  /** Loading fails exactly when some row's GUID text is malformed. */
  lemma LoadFailsOnMalformedRow(table: Table)
    ensures Load(table).None? <==> exists i | 0 <= i < |table| :: Guid.Parse(table[i].0).None?
  {
    var items := FromPairs(table);
    if i :| 0 <= i < |table| && Guid.Parse(table[i].0).None? {
      FromPairsPresent(table, table[i].0);
      assert !Absent(table, table[i].0);
      var j :| 0 <= j < |items| && items[j].0 == table[i].0;
      assert Guid.Parse(items[j].0).None?;
    }
    if ConvertItems(items, Guid.Parse).None? {
      var j :| 0 <= j < |items| && Guid.Parse(items[j].0).None?;
      FromPairsPresent(table, items[j].0);
      assert Get(items, items[j].0).Some?;
      var i :| 0 <= i < |table| && table[i].0 == items[j].0;
      assert Guid.Parse(table[i].0).None?;
    }
  }

  /** Line 80: a GUID listed twice keeps the name of its last row. */
  lemma DuplicateGuidKeepsLastName(g: string, first: string, last: string, b: seq<Guid.byte>)
    requires Guid.Parse(g) == Some(b)
    ensures Load([(g, first), (g, last)]) == Some([(last, b)])
  {
    SameKeyTwice(g, first, last);
    ConvertOne(g, last, b, Guid.Parse);
    FromPairsStep([(last, b)]);
  }

  lemma SameKeyTwice<K, V>(k: K, first: V, last: V)
    ensures FromPairs([(k, first), (k, last)]) == [(k, last)]
  {
    var t := [(k, first), (k, last)];
    FromPairsStep(t);
    FromPairsStep(t[..1]);
  }

  lemma DistinctKeys<K, V>(k1: K, k2: K, v1: V, v2: V)
    requires k1 != k2
    ensures FromPairs([(k1, v1), (k2, v2)]) == [(k1, v1), (k2, v2)]
  {
    var t := [(k1, v1), (k2, v2)];
    FromPairsStep(t);
    FromPairsStep(t[..1]);
  }

  lemma ConvertOne(g: string, n: string, b: seq<Guid.byte>, parse: string -> Option<seq<Guid.byte>>)
    requires parse(g) == Some(b)
    ensures ConvertItems([(g, n)], parse) == Some([(n, b)])
  {
    var items := [(g, n)];
    assert items[0].0 == g && items[0].1 == n;
    assert items[1..] == [];
    assert ConvertItems(items[1..], parse) == Some([]);
    assert [(n, b)] + [] == [(n, b)];
  }

  lemma ConvertTwo(g1: string, g2: string, n: string, b1: seq<Guid.byte>, b2: seq<Guid.byte>,
                   parse: string -> Option<seq<Guid.byte>>)
    requires parse(g1) == Some(b1) && parse(g2) == Some(b2)
    ensures ConvertItems([(g1, n), (g2, n)], parse) == Some([(n, b1), (n, b2)])
  {
    var items := [(g1, n), (g2, n)];
    ConvertOne(g2, n, b2, parse);
    assert items[0].0 == g1 && items[0].1 == n;
    assert items[1..] == [(g2, n)];
    assert [(n, b1)] + [(n, b2)] == [(n, b1), (n, b2)];
  }

  /** Lines 84-85: a name listed under two GUIDs keeps the bytes of the later one. */
  lemma DuplicateNameKeepsLastBytes(g1: string, g2: string, n: string, b1: seq<Guid.byte>, b2: seq<Guid.byte>)
    requires g1 != g2
    requires Guid.Parse(g1) == Some(b1) && Guid.Parse(g2) == Some(b2)
    ensures Load([(g1, n), (g2, n)]) == Some([(n, b2)])
  {
    DistinctKeys(g1, g2, n, n);
    ConvertTwo(g1, g2, n, b1, b2, Guid.Parse);
    SameKeyTwice(n, b1, b2);
  }

  /**
   * `guids_list.index(q)`: the position of the first stored value equal to
   * `q`, or `|kb|` where Python raises `ValueError`.
   */
  function IndexOfValue(kb: Base, q: seq<Guid.byte>): (i: nat)
    ensures i <= |kb|
    ensures i < |kb| ==> kb[i].1 == q
    ensures forall j | 0 <= j < i :: kb[j].1 != q
    decreases |kb|
  {
    if |kb| == 0 then 0
    else if kb[0].1 == q then 0
    else 1 + IndexOfValue(kb[1..], q)
  }

  /**
   * `_check_guid_and_get_name`: the first name, in dict order, whose bytes
   * equal `q`; `None` when no stored value equals `q`.
   */
  function LookupName(kb: Base, q: seq<Guid.byte>): (r: Option<string>)
    ensures r.None? <==> forall i | 0 <= i < |kb| :: kb[i].1 != q
    ensures r.Some? ==> exists i | 0 <= i < |kb| ::
      kb[i] == (r.value, q) && forall j | 0 <= j < i :: kb[j].1 != q
  {
    var i := IndexOfValue(kb, q);
    if i < |kb| then Some(kb[i].0) else None
  }

  /** `self.guids[name]` */
  function LookupBytes(kb: Base, name: string): Option<seq<Guid.byte>> {
    Get(kb, name)
  }

  /** No two names of the base share one 16-byte value. */
  predicate BytesUnique(kb: Base) {
    forall i, j | 0 <= i < j < |kb| :: kb[i].1 != kb[j].1
  }

  /** When bytes are unique, looking up a name's bytes gives the name back. */
  lemma LookupRoundTrip(kb: Base, name: string)
    requires BytesUnique(kb)
    requires LookupBytes(kb, name).Some?
    ensures LookupName(kb, LookupBytes(kb, name).value) == Some(name)
  {
    var b := LookupBytes(kb, name).value;
    var i :| 0 <= i < |kb| && kb[i] == (name, b);
    var j := IndexOfValue(kb, b);
    assert j == i;
  }
}
