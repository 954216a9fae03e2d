/**
 * The prefetcher's circular descriptor lists: appending and ownership
 * marking, with 32-bit next pointers and with next pointers split in two.
 */
module DescriptorList {
  import opened Integers
  import opened Seqs

  /** Descriptors live at addresses; 0 is NULL. */
  type Addr = nat

  type Word32 = w: nat | w < WORD
  const OWN_BY_HW_SET_MASK: bv32 := 0x4000_0000
  const OWN_BY_HW_CLR_MASK: bv32 := 0xBFFF_FFFF

  datatype Standard = Standard(next: Addr, control: bv32, rest: int)

  datatype Extended = Extended(nextLow: Word32, nextHigh: Addr, control: bv32, rest: int)

  datatype Status = Success | InvalidArgument

  // ----- rings

  ghost predicate Follows(next: map<Addr, Addr>, ring: seq<Addr>, i: nat)
    requires i < |ring| && ring[i] in next
  {
    next[ring[i]] == ring[Succ(i, |ring|)]
  }

  /** Following next from ring[0] visits ring, in order, and comes back. */
  ghost predicate IsRing(next: map<Addr, Addr>, ring: seq<Addr>) {
    && Distinct(ring)
    && (forall i | 0 <= i < |ring| :: ring[i] in next && ring[i] != 0)
    && (forall i | 0 <= i < |ring| :: Follows(next, ring, i))
  }

  /** The list that starts at a root pointer. */
  ghost predicate ListAt(next: map<Addr, Addr>, root: Addr, ring: seq<Addr>) {
    IsRing(next, ring) && if root == 0 then ring == [] else ring != [] && ring[0] == root
  }

  /** The last node learns of d, d of the root. */
  function Appended(next: map<Addr, Addr>, last: Addr, d: Addr, root: Addr): (r: map<Addr, Addr>) {
    next[last := d][d := root]
  }

  lemma AppendedIsRing(next: map<Addr, Addr>, ring: seq<Addr>, d: Addr)
    requires IsRing(next, ring) && ring != [] && d !in ring && d in next && d != 0
    ensures IsRing(Appended(next, ring[|ring| - 1], d, ring[0]), ring + [d])
  {
    var r, m := ring + [d], Appended(next, ring[|ring| - 1], d, ring[0]);
    forall i | 0 <= i < |r| ensures r[i] in m && r[i] != 0 && Follows(m, r, i) {
      if i < |ring| { assert Follows(next, ring, i); }
      if i < |ring| - 1 { assert r[i] == ring[i] && ring[i] != ring[|ring| - 1]; }
    }
  }

  /** A descriptor that points to itself is in no ring but its own. */
  lemma SelfLinked(next: map<Addr, Addr>, ring: seq<Addr>, d: Addr)
    requires IsRing(next, ring) && d in ring && next[d] == d
    ensures ring == [d]
  {
    var i :| 0 <= i < |ring| && ring[i] == d;
    assert Follows(next, ring, i);
  }

  // ----- the ownership bit

  function Owned(control: bv32, byHw: bool): (r: bv32) {
    if byHw then control | OWN_BY_HW_SET_MASK else control & OWN_BY_HW_CLR_MASK
  }

  lemma OwnedSetsTheBit(control: bv32)
    ensures Owned(control, true) & OWN_BY_HW_SET_MASK == OWN_BY_HW_SET_MASK
    ensures Owned(control, false) & OWN_BY_HW_SET_MASK == 0
  {
  }

  lemma OwnedKeepsTheRest(control: bv32)
    ensures Owned(control, true) & OWN_BY_HW_CLR_MASK == control & OWN_BY_HW_CLR_MASK
    ensures Owned(control, false) & OWN_BY_HW_CLR_MASK == control & OWN_BY_HW_CLR_MASK
  {
  }

  /** Node i of n is the hardware's, unless it is the last and left to software. */
  predicate ByHw(i: nat, n: nat, lastBySw: bool) {
    !(i + 1 == n && lastBySw)
  }

  // ----- pointers split over two words

  function Join(low: Word32, high: Addr): (r: Addr) {
    high * WORD + low
  }

  function Low(a: Addr): (r: Word32) { a % WORD }

  function High(a: Addr): (r: Addr) { a / WORD }

  /** Comparing the words is comparing the addresses. */
  lemma SameWords(low: Word32, high: Addr, a: Addr)
    ensures low == Low(a) && high == High(a) <==> Join(low, high) == a
  {
  }

  /** The next pointers of a memory of descriptors. */
  function Nexts<D>(m: map<Addr, D>, next: D -> Addr): (r: map<Addr, Addr>) {
    map a | a in m :: next(m[a])
  }

  function StandardLink(d: Standard): (r: Addr) { d.next }

  function ExtendedLink(d: Extended): (r: Addr) { Join(d.nextLow, d.nextHigh) }

  function StandardNext(m: map<Addr, Standard>): (r: map<Addr, Addr>) {
    Nexts(m, StandardLink)
  }

  function ExtendedNext(m: map<Addr, Extended>): (r: map<Addr, Addr>) {
    Nexts(m, ExtendedLink)
  }

  function MarkStandard(d: Standard, byHw: bool): (r: Standard) {
    d.(control := Owned(d.control, byHw))
  }

  function MarkExtended(d: Extended, byHw: bool): (r: Extended) {
    d.(control := Owned(d.control, byHw))
  }

  ghost predicate Holds<D>(m: map<Addr, D>, ring: seq<Addr>) {
    Distinct(ring) && forall i | 0 <= i < |ring| :: ring[i] in m
  }

  /** Memory after the first k nodes of ring have been marked. */
  ghost function Marked<D>(m: map<Addr, D>, ring: seq<Addr>, k: nat, lastBySw: bool, mark: (D, bool) -> D): (r: map<Addr, D>)
    requires Holds(m, ring) && k <= |ring|
    ensures r.Keys == m.Keys
  {
    if k == 0 then m
    else
      var r := Marked(m, ring, k - 1, lastBySw, mark);
      r[ring[k - 1] := mark(r[ring[k - 1]], ByHw(k - 1, |ring|, lastBySw))]
  }

  /** Every node of the ring is marked exactly once, and nothing else in memory changes. */
  lemma {:induction false} MarkedOnce<D>(m: map<Addr, D>, ring: seq<Addr>, k: nat, lastBySw: bool, mark: (D, bool) -> D)
    requires Holds(m, ring) && k <= |ring|
    ensures var r := Marked(m, ring, k, lastBySw, mark);
            && (forall i | 0 <= i < k :: r[ring[i]] == mark(m[ring[i]], ByHw(i, |ring|, lastBySw)))
            && (forall i | k <= i < |ring| :: r[ring[i]] == m[ring[i]])
            && (forall a | a in m && a !in ring :: r[a] == m[a])
  {
    if k > 0 {
      MarkedOnce(m, ring, k - 1, lastBySw, mark);
    }
  }

  /** Changing a descriptor but not its link leaves every ring alone. */
  lemma SameLink<D>(m: map<Addr, D>, a: Addr, d: D, next: D -> Addr)
    requires a in m && next(d) == next(m[a])
    ensures Nexts(m[a := d], next) == Nexts(m, next)
  {
  }

  class Memory {
    var std: map<Addr, Standard>
    var ext: map<Addr, Extended>

    constructor (std: map<Addr, Standard>, ext: map<Addr, Extended>)
      ensures this.std == std && this.ext == ext
    {
      this.std, this.ext := std, ext;
    }

    // ----- standard descriptors

    /** The walk of the append: the last node, or None when d comes up as somebody's successor. */
    method LastStandard(root: Addr, d: Addr, ghost ring: seq<Addr>) returns (found: bool, last: Addr)
      requires ListAt(StandardNext(std), root, ring) && root != 0
      ensures found <==> d in ring[1..]
      ensures !found ==> last == ring[|ring| - 1]
    {
      last := root;
      ghost var k := 0;
      while std[last].next != root
        invariant 0 <= k < |ring| && last == ring[k] && d !in ring[1..k + 1]
        decreases |ring| - k
      {
        assert Follows(StandardNext(std), ring, k);
        if std[last].next == d { return true, last; }
        last := std[last].next;
        k := k + 1;
      }
      assert Follows(StandardNext(std), ring, k);
      assert k == |ring| - 1;
      return false, last;
    }

    /** alt_msgdma_prefetcher_add_standard_desc_to_list */
    method AddStandard(list: Addr, d: Addr, ghost ring: seq<Addr>) returns (status: Status, list': Addr)
      requires ListAt(StandardNext(std), list, ring) && (d != 0 ==> d in std)
      modifies this`std
      ensures status == Success <==> d != 0 && old(std[d]).next == d && d !in ring
      ensures status != Success ==> std == old(std) && list' == list
      ensures status == Success ==>
                && ListAt(StandardNext(std), list', ring + [d]) && list' == (if list == 0 then d else list)
                && std.Keys == old(std).Keys
                && (forall a | a in std :: std[a] == old(std)[a].(next := std[a].next))
                && (forall a | a in std && a !in ring + [d] :: std[a] == old(std)[a])
    {
      if d == 0 { return InvalidArgument, list; }
      if std[d].next != d { return InvalidArgument, list; }
      if list == 0 {
        assert StandardNext(std)[d] == d;
        return Success, d;
      }
      if list == d { return InvalidArgument, list; }
      assert ring == [ring[0]] + ring[1..];
      var found, last := LastStandard(list, d, ring);
      if found { return InvalidArgument, list; }
      AppendedIsRing(StandardNext(std), ring, d);
      SpliceStandard(list, last, d);
      return Success, list;
    }

    /** Put d between last and root: only the next fields of these two change. */
    method SpliceStandard(root: Addr, last: Addr, d: Addr)
      requires last in std && d in std
      modifies this`std
      ensures std.Keys == old(std).Keys && StandardNext(std) == old(StandardNext(std))[last := d][d := root]
      ensures forall a | a in std ::
                std[a] == old(std)[a].(next := std[a].next) && (a != last && a != d ==> std[a] == old(std)[a])
    {
      std := std[last := std[last].(next := d)];
      std := std[d := std[d].(next := root)];
    }

    /** Update the ownership bit only. */
    method MarkStandardAt(a: Addr, byHw: bool)
      requires a in std
      modifies this`std
      ensures std == old(std)[a := MarkStandard(old(std)[a], byHw)] && StandardNext(std) == old(StandardNext(std))
    {
      SameLink(std, a, MarkStandard(std[a], byHw), StandardLink);
      std := std[a := std[a].(control := Owned(std[a].control, byHw))];
    }

    /** alt_msgdma_prefetcher_set_std_list_own_by_hw_bits; count is how many descriptors the cache flush covers. */
    method OwnStandard(list: Addr, lastBySw: bool, ghost ring: seq<Addr>) returns (status: Status, count: nat)
      requires ListAt(StandardNext(std), list, ring)
      modifies this`std
      ensures status == if list == 0 then InvalidArgument else Success
      ensures count == |ring| && std == Marked(old(std), ring, |ring|, lastBySw, MarkStandard)
      ensures ListAt(StandardNext(std), list, ring)
    {
      count := 0;
      if list == 0 { return InvalidArgument, 0; }
      ghost var m, next := std, StandardNext(std);
      var last := list;
      while std[last].next != list
        invariant count < |ring| && last == ring[count] && StandardNext(std) == next
        invariant std == Marked(m, ring, count, lastBySw, MarkStandard)
        decreases |ring| - count
      {
        assert Follows(next, ring, count);
        MarkStandardAt(last, true);
        last := std[last].next;
        count := count + 1;
      }
      assert Follows(next, ring, count);
      MarkStandardAt(last, !lastBySw);
      count := count + 1;
      return Success, count;
    }

    // ----- extended descriptors

    method PointsTo(a: Addr, target: Addr) returns (same: bool)
      requires a in ext
      ensures same == (ExtendedNext(ext)[a] == target)
    {
      SameWords(ext[a].nextLow, ext[a].nextHigh, target);
      same := ext[a].nextLow == Low(target) && ext[a].nextHigh == High(target);
    }

    /** The walk of the extended append. */
    method LastExtended(root: Addr, d: Addr, ghost ring: seq<Addr>) returns (found: bool, last: Addr)
      requires ListAt(ExtendedNext(ext), root, ring) && root != 0
      ensures found <==> d in ring[1..]
      ensures !found ==> last == ring[|ring| - 1]
    {
      last := root;
      ghost var k := 0;
      var atEnd := PointsTo(last, root);
      while !atEnd
        invariant 0 <= k < |ring| && last == ring[k] && d !in ring[1..k + 1]
        invariant atEnd == (ExtendedNext(ext)[last] == root)
        decreases |ring| - k
      {
        assert Follows(ExtendedNext(ext), ring, k);
        var seen := PointsTo(last, d);
        if seen { return true, last; }
        last := Join(ext[last].nextLow, ext[last].nextHigh);
        k := k + 1;
        atEnd := PointsTo(last, root);
      }
      assert Follows(ExtendedNext(ext), ring, k);
      assert k == |ring| - 1;
      return false, last;
    }

    /** Point a's two next words at target. */
    method Relink(a: Addr, target: Addr)
      requires a in ext
      modifies this`ext
      ensures ext.Keys == old(ext).Keys && ExtendedNext(ext) == old(ExtendedNext(ext))[a := target]
      ensures ext == old(ext)[a := old(ext)[a].(nextLow := ext[a].nextLow, nextHigh := ext[a].nextHigh)]
    {
      SameWords(Low(target), High(target), target);
      ext := ext[a := ext[a].(nextLow := Low(target))];
      ext := ext[a := ext[a].(nextHigh := High(target))];
    }

    /** Put d between last and root: only the next words of these two change. */
    method Splice(root: Addr, last: Addr, d: Addr)
      requires last in ext && d in ext
      modifies this`ext
      ensures ext.Keys == old(ext).Keys && ExtendedNext(ext) == old(ExtendedNext(ext))[last := d][d := root]
      ensures forall a | a in ext ::
                ext[a] == old(ext)[a].(nextLow := ext[a].nextLow, nextHigh := ext[a].nextHigh)
                && (a != last && a != d ==> ext[a] == old(ext)[a])
    {
      Relink(last, d);
      Relink(d, root);
    }

    /** alt_msgdma_prefetcher_add_extended_desc_to_list */
    method AddExtended(list: Addr, d: Addr, ghost ring: seq<Addr>) returns (status: Status, list': Addr)
      requires ListAt(ExtendedNext(ext), list, ring) && (d != 0 ==> d in ext)
      modifies this`ext
      ensures status == Success <==> d != 0 && ExtendedNext(old(ext))[d] == d && d !in ring
      ensures status != Success ==> ext == old(ext) && list' == list
      ensures status == Success ==>
                && ListAt(ExtendedNext(ext), list', ring + [d]) && list' == (if list == 0 then d else list)
                && ext.Keys == old(ext).Keys
                && (forall a | a in ext :: ext[a] == old(ext)[a].(nextLow := ext[a].nextLow, nextHigh := ext[a].nextHigh))
                && (forall a | a in ext && a !in ring + [d] :: ext[a] == old(ext)[a])
    {
      if d == 0 { return InvalidArgument, list; }
      var self := PointsTo(d, d);
      if !self { return InvalidArgument, list; }
      if list == 0 { return Success, d; }
      if list == d { return InvalidArgument, list; }
      assert ring == [ring[0]] + ring[1..];
      var found, last := LastExtended(list, d, ring);
      if found { return InvalidArgument, list; }
      AppendedIsRing(ExtendedNext(ext), ring, d);
      Splice(list, last, d);
      return Success, list;
    }

    /** Update the ownership bit only. */
    method MarkExtendedAt(a: Addr, byHw: bool)
      requires a in ext
      modifies this`ext
      ensures ext == old(ext)[a := MarkExtended(old(ext)[a], byHw)] && ExtendedNext(ext) == old(ExtendedNext(ext))
    {
      SameLink(ext, a, MarkExtended(ext[a], byHw), ExtendedLink);
      ext := ext[a := ext[a].(control := Owned(ext[a].control, byHw))];
    }

    /** alt_msgdma_prefetcher_set_extd_list_own_by_hw_bits */
    method OwnExtended(list: Addr, lastBySw: bool, ghost ring: seq<Addr>) returns (status: Status, count: nat)
      requires ListAt(ExtendedNext(ext), list, ring)
      modifies this`ext
      ensures status == if list == 0 then InvalidArgument else Success
      ensures count == |ring| && ext == Marked(old(ext), ring, |ring|, lastBySw, MarkExtended)
      ensures ListAt(ExtendedNext(ext), list, ring)
    {
      count := 0;
      if list == 0 { return InvalidArgument, 0; }
      ghost var m, next := ext, ExtendedNext(ext);
      var last := list;
      var atEnd := PointsTo(last, list);
      while !atEnd
        invariant count < |ring| && last == ring[count] && ExtendedNext(ext) == next
        invariant ext == Marked(m, ring, count, lastBySw, MarkExtended)
        invariant atEnd == (next[last] == list)
        decreases |ring| - count
      {
        assert Follows(next, ring, count);
        MarkExtendedAt(last, true);
        last := Join(ext[last].nextLow, ext[last].nextHigh);
        count := count + 1;
        atEnd := PointsTo(last, list);
      }
      assert Follows(next, ring, count);
      MarkExtendedAt(last, !lastBySw);
      count := count + 1;
      return Success, count;
    }
  }
}
