/**
  Capturing an aggregate before its first attempt and putting it back before the next one. The
  aggregate is a graph of storage nodes that may be cyclic and shared; a deep copy follows its
  exported references, copies each node once, and keeps references to the aggregate itself.

  A node stands for one (type, address, length) of the original's storage. Structs, arrays and
  interfaces are part of the node that holds them, an empty slice holds no storage and is data,
  and a reference in an unexported field is `Hidden`: it is kept and not followed.
 */
module DeepCopy {

  type Addr = nat

  datatype Value = Data(text: string) | Nil | Ref(to: Addr) | Hidden(to: Addr)

  type Heap = map<Addr, seq<Value>>

  type Renaming = map<Addr, Addr>

  predicate RefsIn(values: seq<Value>, s: set<Addr>)
  {
    forall i | 0 <= i < |values| :: values[i].Ref? ==> values[i].to in s
  }

  predicate HiddenIn(values: seq<Value>, s: set<Addr>)
  {
    forall i | 0 <= i < |values| :: values[i].Hidden? ==> values[i].to in s
  }

  function Moved(f: Renaming, v: Value): Value
  {
    if v.Ref? && v.to in f then Ref(f[v.to]) else v
  }

  function MovedAll(f: Renaming, values: seq<Value>): (moved: seq<Value>)
    ensures |moved| == |values|
  {
    seq(|values|, i requires 0 <= i < |values| => Moved(f, values[i]))
  }

  predicate Injective(f: Renaming)
  {
    forall a, b | a in f && b in f && f[a] == f[b] :: a == b
  }

  predicate Extends(f: Renaming, g: Renaming)
  {
    forall a | a in f :: a in g && g[a] == f[a]
  }

  lemma {:induction false} MovedLater(f: Renaming, g: Renaming, values: seq<Value>)
    requires Extends(f, g) && RefsIn(values, f.Keys)
    ensures MovedAll(g, values) == MovedAll(f, values)
  {}

  lemma {:induction false} MovedSnoc(f: Renaming, values: seq<Value>, n: nat)
    requires n < |values|
    ensures MovedAll(f, values[..n + 1]) == MovedAll(f, values[..n]) + [Moved(f, values[n])]
  {}

  /** Node `a` of one heap has its copy in another: same contents, references renamed. */
  predicate Copies(f: Renaming, src: Heap, dst: Heap, a: Addr)
  {
    && a in f && a in src && f[a] in dst
    && RefsIn(src[a], f.Keys) && dst[f[a]] == MovedAll(f, src[a])
  }

  /** Every node of the bound but the root refers only within it. */
  predicate Bounded(src: Heap, root: Addr, bound: set<Addr>)
  {
    root in bound && bound <= src.Keys && forall a | a in bound && a != root :: RefsIn(src[a], bound)
  }

  /** The heap only grew: what was there is there unchanged. */
  predicate Keeps(before: Heap, after: Heap)
  {
    forall a | a in before :: a in after && after[a] == before[a]
  }

  /** A copy under way: `open` nodes have their copy allocated and not yet filled. */
  predicate Copying(src: Heap, root: Addr, bound: set<Addr>, open: set<Addr>, heap: Heap, seen: Renaming)
  {
    && Bounded(src, root, bound) && Keeps(src, heap)
    && root in seen && seen[root] == root && seen.Keys <= bound && Injective(seen)
    && root in open && open <= seen.Keys
    && (forall a | a in seen && a != root :: seen[a] in heap && seen[a] !in src)
    && (forall a | a in seen && a !in open :: Copies(seen, src, heap, a))
  }

  lemma {:induction false} Begins(src: Heap, root: Addr, bound: set<Addr>)
    requires Bounded(src, root, bound)
    ensures Copying(src, root, bound, {root}, src, map[root := root])
  {}

  /** A node is met for the first time: its copy is allocated and it is open. */
  lemma {:induction false} Opens(
    src: Heap, root: Addr, bound: set<Addr>, open: set<Addr>, heap: Heap, seen: Renaming, a: Addr, place: Addr)
    requires Copying(src, root, bound, open, heap, seen) && a in bound && a !in seen && place !in heap
    ensures Copying(src, root, bound, open + {a}, heap[place := []], seen[a := place])
  {}

  /** An open node's copy is filled: it is finished. */
  lemma {:induction false} Fills(
    src: Heap, root: Addr, bound: set<Addr>, open: set<Addr>, heap: Heap, seen: Renaming, a: Addr)
    requires Copying(src, root, bound, open + {a}, heap, seen) && a !in open && root in open
    requires a in src && RefsIn(src[a], seen.Keys)
    ensures Copying(src, root, bound, open, heap[seen[a] := MovedAll(seen, src[a])], seen)
  {}

  /** Since before a node was opened, the heap and the renaming only grew. */
  lemma {:induction false} Grew(
    h: Heap, f: Renaming, heap: Heap, seen: Renaming, a: Addr, place: Addr, contents: seq<Value>)
    requires place !in h && a !in f && Keeps(h[place := []], heap) && Extends(f[a := place], seen)
    ensures Keeps(h, heap[place := contents]) && Extends(f, seen) && a in seen && seen[a] == place
  {}

  // ----- Copies of copies

  /** The nodes of `h` reach only nodes of the set, through exported and unexported fields alike. */
  predicate Within(h: Heap, s: set<Addr>)
  {
    s <= h.Keys && forall a | a in s :: RefsIn(h[a], s) && HiddenIn(h[a], s)
  }

  /** Value by value: a reference leads to its target's image, and everything else is as it was. */
  predicate Mirrors(g: Renaming, original: Heap, heap: Heap, a: Addr)
  {
    && a in g && a in original && g[a] in heap && |heap[g[a]]| == |original[a]|
    && forall i | 0 <= i < |original[a]| ::
         match original[a][i]
         case Ref(to) => to in g && heap[g[a]][i] == Ref(g[to])
         case Hidden(to) => heap[g[a]][i] == Hidden(to)
         case Data(text) => heap[g[a]][i] == Data(text)
         case Nil => heap[g[a]][i] == Nil
  }

  lemma {:induction false} CopyMirrors(g: Renaming, original: Heap, heap: Heap, a: Addr)
    requires Copies(g, original, heap, a)
    ensures Mirrors(g, original, heap, a)
  {}

  /** The root's graph has, under a renaming, the contents and the sharing of the original's. */
  predicate SameShape(g: Renaming, original: Heap, heap: Heap, root: Addr)
  {
    && root in g && g[root] == root && Injective(g)
    && forall a | a in g :: Mirrors(g, original, heap, a)
  }

  function Compose(f: Renaming, g: Renaming): Renaming
  {
    map a | a in f && f[a] in g :: g[f[a]]
  }

  lemma {:induction false} MovedTwice(f: Renaming, g: Renaming, values: seq<Value>)
    requires RefsIn(values, f.Keys) && RefsIn(MovedAll(f, values), g.Keys)
    ensures RefsIn(values, Compose(f, g).Keys) && MovedAll(g, MovedAll(f, values)) == MovedAll(Compose(f, g), values)
  {
    forall i | 0 <= i < |values|
      ensures values[i].Ref? ==> values[i].to in Compose(f, g)
      ensures Moved(g, Moved(f, values[i])) == Moved(Compose(f, g), values[i])
    {
      assert MovedAll(f, values)[i] == Moved(f, values[i]);
    }
  }

  /** What a reset starts from: the saved contents and the copies they lead to. */
  predicate SavedGraph(kept: Renaming, original: Heap, heap: Heap, root: Addr, saved: seq<Value>)
  {
    && root in original && root in heap && root in kept && kept[root] == root
    && Injective(kept) && kept.Keys <= original.Keys
    && (forall a | a in kept && a != root :: Copies(kept, original, heap, a))
    && RefsIn(original[root], kept.Keys) && saved == MovedAll(kept, original[root])
  }

  function Kept(kept: Renaming): set<Addr> { set a | a in kept :: kept[a] }

  lemma {:induction false} KeptIsBounded(kept: Renaming, original: Heap, heap: Heap, root: Addr, saved: seq<Value>)
    requires SavedGraph(kept, original, heap, root, saved)
    ensures Bounded(heap, root, Kept(kept)) && RefsIn(saved, Kept(kept))
  {}

  lemma {:induction false} MovedIn(f: Renaming, values: seq<Value>)
    requires RefsIn(values, f.Keys)
    ensures RefsIn(MovedAll(f, values), Kept(f))
  {}

  /** Putting a copy of the saved graph at the root gives back the original's shape. */
  lemma {:induction false} ResetRestores(
    kept: Renaming, original: Heap, heap: Heap, root: Addr, saved: seq<Value>, more: Heap, seen: Renaming)
    requires SavedGraph(kept, original, heap, root, saved)
    requires Copying(heap, root, Kept(kept), {root}, more, seen) && RefsIn(saved, seen.Keys)
    ensures SameShape(Compose(kept, seen), original, more[root := MovedAll(seen, saved)], root)
    ensures forall a | a in Compose(kept, seen) && a != root :: Compose(kept, seen)[a] !in heap
  {
    var g, after := Compose(kept, seen), more[root := MovedAll(seen, saved)];
    MovedTwice(kept, seen, original[root]);
    CopyMirrors(g, original, after, root);
    forall a | a in g && a != root ensures Mirrors(g, original, after, a) && g[a] !in heap {
      var c := kept[a];
      assert c != root;
      assert Copies(kept, original, heap, a) && Copies(seen, heap, more, c);
      MovedTwice(kept, seen, original[a]);
      CopyMirrors(g, original, after, a);
    }
  }

  /** After a reset the live graph is separate from the saved one again. */
  lemma {:induction false} ResetSeparates(
    kept: Renaming, original: Heap, heap: Heap, root: Addr, saved: seq<Value>, live: set<Addr>, more: Heap,
    seen: Renaming)
    requires SavedGraph(kept, original, heap, root, saved) && Within(heap, live) && original.Keys <= live
    requires forall a | a in original :: HiddenIn(original[a], original.Keys)
    requires Copying(heap, root, Kept(kept), {root}, more, seen) && RefsIn(saved, seen.Keys)
    ensures Within(more[root := MovedAll(seen, saved)], live + Kept(seen))
  {
    var after, all := more[root := MovedAll(seen, saved)], live + Kept(seen);
    MovedIn(seen, saved);
    forall d | d in all ensures d in after && RefsIn(after[d], all) && HiddenIn(after[d], all) {
      if d != root {
        if d in live {
          assert after[d] == heap[d];
        } else {
          var c :| c in seen && seen[c] == d;
        }
      }
    }
  }

  /** The saved graph is intact, and nothing the aggregate reaches leads into it. */
  predicate Apart(kept: Renaming, original: Heap, heap: Heap, root: Addr, saved: seq<Value>, live: set<Addr>)
  {
    && SavedGraph(kept, original, heap, root, saved)
    && Within(heap, live) && original.Keys <= live
    && (forall a | a in original :: HiddenIn(original[a], original.Keys))
    && (forall a | a in kept && a != root :: kept[a] !in live)
  }

  lemma {:induction false} ResetKeeps(
    kept: Renaming, original: Heap, heap: Heap, root: Addr, saved: seq<Value>, live: set<Addr>, more: Heap,
    seen: Renaming)
    requires Apart(kept, original, heap, root, saved, live)
    requires Copying(heap, root, Kept(kept), {root}, more, seen) && RefsIn(saved, seen.Keys)
    ensures var after := more[root := MovedAll(seen, saved)];
            && Apart(kept, original, after, root, saved, live + Kept(seen))
            && SameShape(Compose(kept, seen), original, after, root)
    ensures forall a | a in Compose(kept, seen) && a != root :: Compose(kept, seen)[a] !in heap
  {
    ResetRestores(kept, original, heap, root, saved, more, seen);
    ResetSeparates(kept, original, heap, root, saved, live, more, seen);
  }

  /**
    What an attempt may do to memory: change nodes it can reach and allocate new ones, linking
    only what it can reach.
   */
  predicate Touches(before: Heap, after: Heap, live: set<Addr>)
  {
    && before.Keys <= after.Keys
    && (forall a | a in before && a !in live :: after[a] == before[a])
    && Within(after, live + (after.Keys - before.Keys))
  }

  class Memory {
    var heap: Heap
    var next: Addr
    var seen: Renaming
    var saved: seq<Value>

    ghost var original: Heap      // the heap when the aggregate was captured
    ghost var kept: Renaming      // its nodes' saved copies
    ghost var live: set<Addr>     // what the aggregate can reach

    constructor (heap: Heap, next: Addr)
      requires forall a | a in heap :: a < next
      ensures Roomy() && this.heap == heap
    {
      this.heap, this.next, seen, saved := heap, next, map[], [];
      original, kept, live := map[], map[], {};
    }

    /** The saved graph is intact, and nothing the aggregate reaches leads into it. */
    ghost predicate Captured(root: Addr)
      reads this
    {
      Roomy() && Apart(kept, original, heap, root, saved, live)
    }

    ghost predicate Roomy()
      reads this
    {
      forall a | a in heap :: a < next
    }

    /** Copies one value; a reference copies the node it leads to, once. */
    method CopyValue(ghost src: Heap, ghost root: Addr, ghost bound: set<Addr>, ghost open: set<Addr>, v: Value)
      returns (r: Value)
      requires Roomy() && Copying(src, root, bound, open, heap, seen)
      requires v.Ref? ==> v.to in bound
      modifies this`heap, this`next, this`seen
      ensures Roomy() && Copying(src, root, bound, open, heap, seen)
      ensures Extends(old(seen), seen) && Keeps(old(heap), heap)
      ensures r == Moved(seen, v) && (v.Ref? ==> v.to in seen)
      decreases bound - seen.Keys, 1
    {
      if !v.Ref? {
        return v;
      }
      if v.to in seen {
        return Ref(seen[v.to]);
      }
      r := CopyNode(src, root, bound, open, v.to);
    }

    /** Allocates a node's copy, remembers it, and fills it with the copy of the node's contents. */
    method CopyNode(ghost src: Heap, ghost root: Addr, ghost bound: set<Addr>, ghost open: set<Addr>, a: Addr)
      returns (r: Value)
      requires Roomy() && Copying(src, root, bound, open, heap, seen)
      requires a in bound && a !in seen
      modifies this`heap, this`next, this`seen
      ensures Roomy() && Copying(src, root, bound, open, heap, seen)
      ensures Extends(old(seen), seen) && Keeps(old(heap), heap)
      ensures a in seen && r == Ref(seen[a])
      decreases bound - seen.Keys, 0
    {
      var place := next;
      Opens(src, root, bound, open, heap, seen, a, place);
      ghost var h, f := heap, seen;
      heap, seen, next := heap[place := []], seen[a := place], next + 1;
      var contents := CopyAll(src, root, bound, open + {a}, heap[a]);
      Fills(src, root, bound, open, heap, seen, a);
      Grew(h, f, heap, seen, a, place, contents);
      heap := heap[place := contents];
      r := Ref(place);
    }

    method CopyAll(ghost src: Heap, ghost root: Addr, ghost bound: set<Addr>, ghost open: set<Addr>, values: seq<Value>)
      returns (moved: seq<Value>)
      requires Roomy() && Copying(src, root, bound, open, heap, seen)
      requires RefsIn(values, bound)
      modifies this`heap, this`next, this`seen
      ensures Roomy() && Copying(src, root, bound, open, heap, seen)
      ensures Extends(old(seen), seen) && Keeps(old(heap), heap)
      ensures RefsIn(values, seen.Keys) && moved == MovedAll(seen, values)
      decreases bound - seen.Keys, 2
    {
      moved := [];
      var i := 0;
      while i < |values|
        invariant i <= |values| && Roomy() && Copying(src, root, bound, open, heap, seen)
        invariant Extends(old(seen), seen) && Keeps(old(heap), heap)
        invariant RefsIn(values[..i], seen.Keys) && moved == MovedAll(seen, values[..i])
      {
        ghost var before := seen;
        var v := CopyValue(src, root, bound, open, values[i]);
        MovedLater(before, seen, values[..i]);
        MovedSnoc(seen, values, i);
        moved := moved + [v];
        i := i + 1;
      }
      assert values[..i] == values;
    }

    /** Saves the aggregate: the live graph is untouched, and the saved copy is apart from it. */
    method Capture(root: Addr)
      requires Roomy() && root in heap && Within(heap, heap.Keys)
      modifies this
      ensures Captured(root) && original == old(heap) && live == old(heap).Keys && Keeps(old(heap), heap)
    {
      ghost var src := heap;
      Begins(src, root, src.Keys);
      seen := map[root := root];
      saved := CopyAll(src, root, src.Keys, {root}, heap[root]);
      original, kept, live := src, seen, src.Keys;
    }

    /** An attempt runs: it does whatever it can to the aggregate, and never reaches the saved copy. */
    method Attempt(root: Addr, after: Heap, next: Addr)
      requires Captured(root) && Touches(heap, after, live) && forall a | a in after :: a < next
      modifies this
      ensures Captured(root) && heap == after
      ensures original == old(original) && kept == old(kept) && saved == old(saved)
    {
      forall a | a in kept && a != root
        ensures Copies(kept, original, after, a) && kept[a] !in live + (after.Keys - heap.Keys)
      {
        assert Copies(kept, original, heap, a) && kept[a] !in live;
      }
      live := live + (after.Keys - heap.Keys);
      heap, this.next := after, next;
    }

    method CopySaved(root: Addr) returns (contents: seq<Value>)
      requires Captured(root) && Bounded(heap, root, Kept(kept)) && RefsIn(saved, Kept(kept))
      modifies this`heap, this`next, this`seen
      ensures Roomy() && root in heap
      ensures var after := heap[root := contents];
              && Apart(kept, original, after, root, saved, live + Kept(seen))
              && SameShape(Compose(kept, seen), original, after, root)
      ensures forall a | a in Compose(kept, seen) && a != root :: Compose(kept, seen)[a] !in old(heap)
    {
      ghost var src, bound := heap, Kept(kept);
      Begins(src, root, bound);
      seen := map[root := root];
      contents := CopyAll(src, root, bound, {root}, saved);
      ResetKeeps(kept, original, src, root, saved, live, heap, seen);
    }

    /**
      Puts the aggregate back: its graph has the captured shape and contents again whatever the
      attempts did, on nodes no earlier attempt has seen.
     */
    method Reset(root: Addr) returns (ghost g: Renaming)
      requires Captured(root)
      modifies this
      ensures Captured(root)
      ensures original == old(original) && kept == old(kept) && saved == old(saved)
      ensures SameShape(g, original, heap, root)
      ensures forall a | a in g && a != root :: g[a] !in old(heap)
    {
      KeptIsBounded(kept, original, heap, root, saved);
      var contents := CopySaved(root);
      g := Compose(kept, seen);
      ghost var after, all := heap[root := contents], live + Kept(seen);
      assert Apart(kept, original, after, root, saved, all) && SameShape(g, original, after, root);
      live, heap := all, heap[root := contents];
      assert heap == after;
    }
  }
}
