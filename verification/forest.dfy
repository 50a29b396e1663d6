/** The dimension forest of hooks/use-dimensions.tsx as values: dimensions linked
    to their parents by id, the ancestry walk, the children filter and the user
    merge that a merged dimension starts from. */
module Forest {
  import opened Base

  datatype Anomaly = Anomaly(areaId: string, name: string, x: real, y: real, radius: real, color: string)

  datatype Portal = Portal(position: Position, targetId: string, targetName: string, color: Option<string>)

  datatype Effects = Effects(avatarEffect: Option<string>)

  /** One alternate office (types/dimension.ts). The free-form `officeConfig`
      record is kept as a map from keys to opaque values; `null` and a missing
      field are both `None`. */
  datatype Dimension = Dimension(
    id: string,
    name: string,
    description: string,
    createdAt: string,
    userCount: int,
    color: Option<string>,
    officeConfig: map<string, string>,
    parentId: Option<string>,
    effects: Option<Effects>,
    anomalies: Option<seq<Anomaly>>,
    portals: Option<seq<Portal>>,
    weather: Option<string>,
    decorations: Option<map<string, seq<Furniture>>>)

  /** `dimensions.find(d => d.id === id)`, as the position of the first match. */
  function FindDim(dims: seq<Dimension>, id: string): (r: Option<nat>)
    ensures r.Some? ==> r.value < |dims| && dims[r.value].id == id
    ensures r.Some? ==> forall j :: 0 <= j < r.value ==> dims[j].id != id
    ensures r.None? <==> forall j :: 0 <= j < |dims| ==> dims[j].id != id
  {
    if dims == [] then None
    else if dims[0].id == id then Some(0)
    else match FindDim(dims[1..], id)
      case None => None
      case Some(k) => Some(k + 1)
  }

  /** Appending never changes which dimension an id already present finds. */
  lemma {:induction false} FindDimAppend(dims: seq<Dimension>, d: Dimension, id: string)
    ensures FindDim(dims + [d], id) == if FindDim(dims, id).Some? then FindDim(dims, id)
                                       else if d.id == id then Some(|dims|) else None
  {
    if dims == [] {
      assert [d][1..] == [];
    } else if dims[0].id != id {
      assert (dims + [d])[1..] == dims[1..] + [d];
      FindDimAppend(dims[1..], d, id);
    }
  }

  /** `dimension.parentId || ""`: the id the ancestry walk continues with. */
  function ParentKey(d: Dimension): string {
    d.parentId.GetOr("")
  }

  /** Every parent link that resolves points to a dimension earlier in the list:
      the shape that creating and merging build. It is stronger than having no
      cycle, and the history walk does not need it. */
  ghost predicate Acyclic(dims: seq<Dimension>) {
    forall i :: 0 <= i < |dims| && ParentKey(dims[i]) != "" && FindDim(dims, ParentKey(dims[i])).Some? ==>
      FindDim(dims, ParentKey(dims[i])).value < i
  }

  /** An id a new dimension may take: a uuid is non-empty and never seen before,
      neither as an id nor as a parent link. */
  ghost predicate Fresh(dims: seq<Dimension>, id: string) {
    id != "" && forall j :: 0 <= j < |dims| ==> dims[j].id != id && ParentKey(dims[j]) != id
  }

  /** Appending a dimension with a fresh id whose parent link resolves to an
      existing dimension, or to nothing, keeps links pointing backwards. */
  lemma AcyclicAppend(dims: seq<Dimension>, d: Dimension)
    requires Acyclic(dims) && Fresh(dims, d.id)
    requires ParentKey(d) != d.id
    ensures Acyclic(dims + [d])
  {
    var r := dims + [d];
    forall i | 0 <= i < |r| && ParentKey(r[i]) != "" && FindDim(r, ParentKey(r[i])).Some?
      ensures FindDim(r, ParentKey(r[i])).value < i
    {
      FindDimAppend(dims, d, ParentKey(r[i]));
      if i < |dims| {
        assert r[i] == dims[i];
      }
    }
  }

  /** What `dimensions.find(d => d.id === id)` consults: each id mapped to the
      first dimension that has it. */
  function Links(dims: seq<Dimension>): map<string, Dimension> {
    if dims == [] then map[] else Links(dims[1..])[dims[0].id := dims[0]]
  }

  /** The table has an id exactly when `find` finds it, and holds what `find` returns. */
  lemma {:induction false} LinksFind(dims: seq<Dimension>, id: string)
    ensures id in Links(dims) <==> FindDim(dims, id).Some?
    ensures id in Links(dims) ==> Links(dims)[id] == dims[FindDim(dims, id).value] && Links(dims)[id].id == id
  {
    if dims != [] && dims[0].id != id {
      LinksFind(dims[1..], id);
    }
  }

  /** Appending a dimension under a new id adds exactly its entry. */
  lemma {:induction false} LinksAppend(dims: seq<Dimension>, d: Dimension)
    requires FindDim(dims, d.id).None?
    ensures Links(dims + [d]) == Links(dims)[d.id := d]
  {
    if dims == [] {
      assert [d][1..] == [];
    } else {
      assert (dims + [d])[1..] == dims[1..] + [d];
      LinksAppend(dims[1..], d);
      assert dims[0].id != d.id;
    }
  }

  // ---------------------------------------------------------------------------
  // The ancestry walk of `getDimensionHistory`, pass by pass, over the table
  // that `find` consults.

  /** The walk stops at `id`: it is empty, or no dimension has it. */
  predicate Halts(t: map<string, Dimension>, id: string) {
    id == "" || id !in t
  }

  /** One pass of the walk: the parent key of the dimension found, or `id`
      itself once the walk has stopped. */
  function Up(t: map<string, Dimension>, id: string): string {
    if Halts(t, id) then id else ParentKey(t[id])
  }

  /** The id the walk holds after `n` passes. */
  function IdAfter(t: map<string, Dimension>, id: string, n: nat): string
    decreases n
  {
    if n == 0 then id else IdAfter(t, Up(t, id), n - 1)
  }

  /** Once stopped, the walk stays where it stopped. */
  lemma {:induction false} HaltedStays(t: map<string, Dimension>, id: string, m: nat, n: nat)
    requires m <= n && Halts(t, IdAfter(t, id, m))
    ensures IdAfter(t, id, n) == IdAfter(t, id, m)
    decreases n
  {
    if m > 0 {
      HaltedStays(t, Up(t, id), m - 1, n - 1);
    } else if n > 0 {
      HaltedStays(t, id, 0, n - 1);
    }
  }

  /** Pass `n + 1` is one more pass after pass `n`, as the loop takes them. */
  lemma {:induction false} IdAfterSnoc(t: map<string, Dimension>, id: string, n: nat)
    ensures IdAfter(t, id, n + 1) == Up(t, IdAfter(t, id, n))
    decreases n
  {
    if n > 0 {
      IdAfterSnoc(t, Up(t, id), n - 1);
    }
  }

  /** `a` passes and then `b` more are `a + b` passes. */
  lemma {:induction false} IdAfterAdd(t: map<string, Dimension>, id: string, a: nat, b: nat)
    ensures IdAfter(t, IdAfter(t, id, a), b) == IdAfter(t, id, a + b)
    decreases a
  {
    if a > 0 {
      IdAfterAdd(t, Up(t, id), a - 1, b);
    }
  }

  /** The `history` array after `n` passes of the unguarded loop, child first:
      the dimension of each id the walk holds until it stops. */
  function Walk(t: map<string, Dimension>, id: string, n: nat): (r: seq<Dimension>)
    ensures |r| <= n
    decreases n
  {
    if n == 0 || Halts(t, id) then [] else [t[id]] + Walk(t, Up(t, id), n - 1)
  }

  /** The walk holds a found id at each pass it collects, the dimension of that
      id is what it collects, and it has stopped once it collects no more. */
  lemma {:induction false} WalkFacts(t: map<string, Dimension>, id: string, n: nat)
    ensures var r := Walk(t, id, n);
      && (forall i :: 0 <= i < |r| ==>
           && !Halts(t, IdAfter(t, id, i))
           && r[i] == t[IdAfter(t, id, i)]
           && ParentKey(r[i]) == IdAfter(t, id, i + 1))
      && (|r| < n ==> Halts(t, IdAfter(t, id, |r|)))
    decreases n
  {
    if n > 0 && !Halts(t, id) {
      var up := Up(t, id);
      WalkFacts(t, up, n - 1);
      var r := Walk(t, id, n);
      assert forall i :: 0 < i < |r| ==> r[i] == Walk(t, up, n - 1)[i - 1] && IdAfter(t, id, i) == IdAfter(t, up, i - 1);
    }
  }

  /** When pass `n` holds a found id, pass `n + 1` collects its dimension at the end. */
  lemma {:induction false} WalkSnoc(t: map<string, Dimension>, id: string, n: nat)
    requires !Halts(t, IdAfter(t, id, n))
    ensures Walk(t, id, n + 1) == Walk(t, id, n) + [t[IdAfter(t, id, n)]]
    decreases n
  {
    if n > 0 {
      if Halts(t, id) {
        HaltedStays(t, id, 0, n);
      }
      WalkSnoc(t, Up(t, id), n - 1);
    }
  }

  /** The walk has stopped within `n` passes. */
  predicate StopsWithin(t: map<string, Dimension>, id: string, n: nat) {
    Halts(t, IdAfter(t, id, n))
  }

  /** The unguarded loop from `id` ends. */
  ghost predicate WalkEnds(t: map<string, Dimension>, id: string) {
    exists n :: StopsWithin(t, id, n)
  }

  /** After the walk stops, further passes collect nothing. */
  lemma {:induction false} WalkSettles(t: map<string, Dimension>, id: string, m: nat, n: nat)
    requires m <= n && StopsWithin(t, id, m)
    ensures StopsWithin(t, id, n) && Walk(t, id, n) == Walk(t, id, m)
    decreases m
  {
    HaltedStays(t, id, m, n);
    if m > 0 && !Halts(t, id) {
      WalkSettles(t, Up(t, id), m - 1, n - 1);
    }
  }

  /** Once the walk comes back to an id it found before, it goes round for ever. */
  lemma {:induction false} NeverHaltsFrom(t: map<string, Dimension>, id: string, j: nat, k: nat, m: nat)
    requires j < k && IdAfter(t, id, j) == IdAfter(t, id, k) && !Halts(t, IdAfter(t, id, j))
    requires j <= m
    ensures !Halts(t, IdAfter(t, id, m))
    decreases m
  {
    if m < k {
      if Halts(t, IdAfter(t, id, m)) {
        HaltedStays(t, id, m, k);
      }
    } else {
      var back := j + (m - k);
      IdAfterAdd(t, id, k, m - k);
      IdAfterAdd(t, id, j, m - k);
      NeverHaltsFrom(t, id, j, k, back);
    }
  }

  /** A walk that meets a found id twice never ends. */
  lemma RepeatNeverEnds(t: map<string, Dimension>, id: string, j: nat, k: nat)
    requires j < k && IdAfter(t, id, j) == IdAfter(t, id, k) && !Halts(t, IdAfter(t, id, j))
    ensures !WalkEnds(t, id)
  {
    forall n: nat ensures !StopsWithin(t, id, n) {
      if j <= n {
        NeverHaltsFrom(t, id, j, k, n);
      } else if Halts(t, IdAfter(t, id, n)) {
        HaltedStays(t, id, n, j);
      }
    }
  }

  /** `Array.prototype.reverse` as a value. */
  function Reverse(s: seq<Dimension>): (r: seq<Dimension>)
    ensures |r| == |s|
    ensures forall i :: 0 <= i < |s| ==> r[i] == s[|s| - 1 - i]
  {
    if s == [] then [] else [s[|s| - 1]] + Reverse(s[..|s| - 1])
  }

  lemma ReverseCons(d: Dimension, w: seq<Dimension>)
    ensures Reverse([d] + w) == Reverse(w) + [d]
  {
    assert forall i :: 0 <= i < |w| + 1 ==> Reverse([d] + w)[i] == (Reverse(w) + [d])[i];
  }

  /** The ids of a list of dimensions. */
  function IdsOf(ds: seq<Dimension>): set<string> {
    if ds == [] then {} else IdsOf(ds[..|ds| - 1]) + {ds[|ds| - 1].id}
  }

  /** An id is among them exactly when some dimension of the list has it. */
  lemma {:induction false} IdsOfHas(ds: seq<Dimension>, x: string)
    ensures x in IdsOf(ds) <==> exists k :: 0 <= k < |ds| && ds[k].id == x
  {
    if ds != [] {
      var init := ds[..|ds| - 1];
      IdsOfHas(init, x);
      if x in IdsOf(init) {
        var k :| 0 <= k < |init| && init[k].id == x;
        assert ds[k].id == x;
      }
    }
  }

  /** One pass of the guarded walk: collecting the dimension of an id not
      collected before extends the walk and keeps each id collected once. */
  lemma GuardedStep(t: map<string, Dimension>, id: string, w: seq<Dimension>, d: Dimension)
    requires w == Walk(t, id, |w|)
    requires forall k :: 0 <= k < |w| ==> w[k].id == IdAfter(t, id, k)
    requires forall i, j :: 0 <= i < j < |w| ==> w[i].id != w[j].id
    requires !Halts(t, IdAfter(t, id, |w|)) && d == t[IdAfter(t, id, |w|)] && d.id == IdAfter(t, id, |w|)
    requires d.id !in IdsOf(w)
    ensures w + [d] == Walk(t, id, |w| + 1)
    ensures ParentKey(d) == IdAfter(t, id, |w| + 1)
    ensures IdsOf(w + [d]) == IdsOf(w) + {d.id}
    ensures forall k :: 0 <= k < |w| + 1 ==> (w + [d])[k].id == IdAfter(t, id, k)
    ensures forall i, j :: 0 <= i < j < |w| + 1 ==> (w + [d])[i].id != (w + [d])[j].id
  {
    WalkSnoc(t, id, |w|);
    IdAfterSnoc(t, id, |w|);
    DistinctSnoc(w, d);
  }

  /** Appending a dimension whose id is not yet collected keeps the ids distinct. */
  lemma DistinctSnoc(w: seq<Dimension>, d: Dimension)
    requires forall i, j :: 0 <= i < j < |w| ==> w[i].id != w[j].id
    requires d.id !in IdsOf(w)
    ensures IdsOf(w + [d]) == IdsOf(w) + {d.id}
    ensures forall i, j :: 0 <= i < j < |w| + 1 ==> (w + [d])[i].id != (w + [d])[j].id
  {
    assert (w + [d])[..|w|] == w;
    forall k | 0 <= k < |w|
      ensures w[k].id != d.id
    {
      IdsOfHas(w, w[k].id);
    }
  }

  /** A walk cut short once the id it holds has stopped the walk or has been
      collected before, with each id collected once: reversed, it is the chain
      whenever the walk ends, and its oldest dimension links to nothing found or
      to one of its own. */
  lemma StoppedWalk(t: map<string, Dimension>, id: string, w: seq<Dimension>, cur: string)
    requires w == Walk(t, id, |w|) && cur == IdAfter(t, id, |w|)
    requires forall k :: 0 <= k < |w| ==> w[k].id == IdAfter(t, id, k)
    requires forall i, j :: 0 <= i < j < |w| ==> w[i].id != w[j].id
    requires Halts(t, cur) || cur in IdsOf(w)
    ensures var r := Reverse(w);
      && (WalkEnds(t, id) ==> r == Ancestry(t, id))
      && (forall i, j :: 0 <= i < j < |r| ==> r[i].id != r[j].id)
      && (r != [] ==> Halts(t, ParentKey(r[0])) || exists d :: d in r && d.id == ParentKey(r[0]))
  {
    var r := Reverse(w);
    WalkFacts(t, id, |w|);
    if Halts(t, cur) {
      assert StopsWithin(t, id, |w|);
      AncestryIsWalk(t, id, |w|);
    } else {
      IdsOfHas(w, cur);
      var k :| 0 <= k < |w| && w[k].id == cur;
      RepeatNeverEnds(t, id, k, |w|);
      assert r[|w| - 1 - k] == w[k];
    }
    forall i, j | 0 <= i < j < |r|
      ensures r[i].id != r[j].id
    {
      assert r[i] == w[|w| - 1 - i] && r[j] == w[|w| - 1 - j];
    }
  }

  /** The ancestor chain of `id` that `getDimensionHistory` returns when its walk
      ends, root first. */
  ghost function Ancestry(t: map<string, Dimension>, id: string): seq<Dimension>
    requires WalkEnds(t, id)
  {
    var n :| StopsWithin(t, id, n);
    Reverse(Walk(t, id, n))
  }

  /** The chain is empty exactly for an id the walk stops at; otherwise it ends
      with `id`'s dimension, each element is the dimension its successor's
      parent key finds, and the root's parent key finds nothing. */
  lemma AncestryShape(t: map<string, Dimension>, id: string)
    requires WalkEnds(t, id)
    ensures var r := Ancestry(t, id);
      && (Halts(t, id) <==> r == [])
      && (r != [] ==> r[|r| - 1] == t[id])
      && (forall i :: 0 <= i < |r| ==> r[i] in t.Values)
      && (forall i :: 0 < i < |r| ==> ParentKey(r[i]) in t && r[i - 1] == t[ParentKey(r[i])])
      && (r != [] ==> Halts(t, ParentKey(r[0])))
  {
    var n: nat :| StopsWithin(t, id, n);
    AncestryIsWalk(t, id, n);
    WalkChain(t, id, n);
  }

  /** A walk that has stopped, front to back: each dimension's parent key finds
      the next, and the last one's finds nothing. */
  lemma WalkChain(t: map<string, Dimension>, id: string, n: nat)
    requires StopsWithin(t, id, n)
    ensures var w := Walk(t, id, n);
      && (Halts(t, id) <==> w == [])
      && (w != [] ==> w[0] == t[id])
      && (forall j :: 0 <= j < |w| ==> w[j] in t.Values)
      && (forall j :: 0 <= j < |w| - 1 ==> ParentKey(w[j]) in t && w[j + 1] == t[ParentKey(w[j])])
      && (w != [] ==> Halts(t, ParentKey(w[|w| - 1])))
  {
    var w := Walk(t, id, n);
    WalkFacts(t, id, n);
    if |w| == n {
      assert Halts(t, IdAfter(t, id, |w|));
    }
    forall j | 0 <= j < |w|
      ensures w[j] in t.Values
    {
      assert IdAfter(t, id, j) in t;
    }
    forall j | 0 <= j < |w| - 1
      ensures ParentKey(w[j]) in t && w[j + 1] == t[ParentKey(w[j])]
    {
      assert ParentKey(w[j]) == IdAfter(t, id, j + 1) && !Halts(t, IdAfter(t, id, j + 1));
    }
    assert IdAfter(t, id, 0) == id;
  }

  /** The chain is the reversed walk of any number of passes after which it has stopped. */
  lemma AncestryIsWalk(t: map<string, Dimension>, id: string, n: nat)
    requires StopsWithin(t, id, n)
    ensures WalkEnds(t, id) && Ancestry(t, id) == Reverse(Walk(t, id, n))
  {
    var n0: nat :| StopsWithin(t, id, n0) && Ancestry(t, id) == Reverse(Walk(t, id, n0));
    if n0 <= n {
      WalkSettles(t, id, n0, n);
    } else {
      WalkSettles(t, id, n, n0);
    }
  }

  /** The chain of a found dimension is its parent's chain followed by the
      dimension, and the walk from one ends exactly when the walk from the other does. */
  lemma AncestryStep(t: map<string, Dimension>, id: string)
    requires !Halts(t, id)
    requires WalkEnds(t, id) || WalkEnds(t, ParentKey(t[id]))
    ensures WalkEnds(t, id) && WalkEnds(t, ParentKey(t[id]))
    ensures Ancestry(t, id) == Ancestry(t, ParentKey(t[id])) + [t[id]]
  {
    var p := ParentKey(t[id]);
    var n: nat;
    if WalkEnds(t, p) {
      n :| StopsWithin(t, p, n);
    } else {
      var m: nat :| StopsWithin(t, id, m);
      assert m != 0;
      n := m - 1;
    }
    StepFromFound(t, id, n);
    AncestryIsWalk(t, id, n + 1);
    AncestryIsWalk(t, p, n);
    ReverseCons(t[id], Walk(t, p, n));
  }

  /** From a found id, `n + 1` passes are one step to the parent key and then `n`
      passes from there. */
  lemma StepFromFound(t: map<string, Dimension>, id: string, n: nat)
    requires !Halts(t, id)
    ensures StopsWithin(t, id, n + 1) <==> StopsWithin(t, ParentKey(t[id]), n)
    ensures Walk(t, id, n + 1) == [t[id]] + Walk(t, ParentKey(t[id]), n)
  {
  }


  /** An id the walk stops at has the empty chain. */
  lemma AncestryOfHalt(t: map<string, Dimension>, id: string)
    requires Halts(t, id)
    ensures WalkEnds(t, id) && Ancestry(t, id) == []
  {
    assert StopsWithin(t, id, 0);
    AncestryShape(t, id);
  }

  /** Adding an entry under a key nothing links to keeps the chain of every other id. */
  lemma AncestryAddOther(t: map<string, Dimension>, key: string, d: Dimension, id: string)
    requires key != "" && key !in t && forall x :: x in t ==> ParentKey(t[x]) != key
    requires id != key && WalkEnds(t, id)
    ensures WalkEnds(t[key := d], id) && Ancestry(t[key := d], id) == Ancestry(t, id)
  {
    var n: nat :| StopsWithin(t, id, n);
    WalkAddOther(t, key, d, id, n);
    assert StopsWithin(t[key := d], id, n);
    AncestryIsWalk(t, id, n);
    AncestryIsWalk(t[key := d], id, n);
  }

  /** Appending a dimension under a fresh id, as a child of `p`, gives it the
      chain of `p` followed by itself, whenever the walk from `p` ends. */
  lemma AppendChildAncestry(dims: seq<Dimension>, d: Dimension, p: string)
    requires Fresh(dims, d.id) && ParentKey(d) == p && p != d.id
    requires WalkEnds(Links(dims), p)
    ensures WalkEnds(Links(dims + [d]), d.id) && WalkEnds(Links(dims + [d]), p)
    ensures Ancestry(Links(dims + [d]), d.id) == Ancestry(Links(dims), p) + [d]
  {
    var t := Links(dims);
    LinksFind(dims, d.id);
    LinksAppend(dims, d);
    forall x | x in t
      ensures ParentKey(t[x]) != d.id
    {
      LinksFind(dims, x);
    }
    AncestryAddOther(t, d.id, d, p);
    AncestryStep(t[d.id := d], d.id);
  }

  /** What appending a child of `p` keeps, from `before` to `after`: links
      still point backwards if they did, and whenever the walk from `p` ends,
      the child's chain is its parent's followed by the new last dimension. */
  ghost predicate ChildAppended(before: seq<Dimension>, after: seq<Dimension>, p: string, id: string)
    requires |after| > 0
  {
    && (Acyclic(before) ==> Acyclic(after))
    && (WalkEnds(Links(before), p) ==>
          && WalkEnds(Links(after), id)
          && Ancestry(Links(after), id) == Ancestry(Links(before), p) + [after[|after| - 1]])
  }

  /** Appending a child of `p` under a fresh id: the new id finds the new last
      dimension, and the append keeps the forest as `ChildAppended` says. */
  lemma AppendChild(dims: seq<Dimension>, d: Dimension, p: string)
    requires Fresh(dims, d.id) && ParentKey(d) == p && p != d.id
    ensures FindDim(dims + [d], d.id) == Some(|dims|)
    ensures ChildAppended(dims, dims + [d], p, d.id)
  {
    FindDimAppend(dims, d, d.id);
    if Acyclic(dims) {
      AcyclicAppend(dims, d);
    }
    if WalkEnds(Links(dims), p) {
      AppendChildAncestry(dims, d, p);
    }
  }

  /** The number of passes enough to stop, where links point backwards. */
  function Rank(dims: seq<Dimension>, id: string): nat {
    if id == "" then 0
    else match FindDim(dims, id)
      case None => 0
      case Some(k) => k + 1
  }

  /** Where links point backwards, the walk from any id ends within its rank. */
  lemma {:induction false} AcyclicStops(dims: seq<Dimension>, id: string)
    requires Acyclic(dims)
    ensures StopsWithin(Links(dims), id, Rank(dims, id))
    decreases Rank(dims, id)
  {
    var t := Links(dims);
    LinksFind(dims, id);
    if !Halts(t, id) {
      var k := FindDim(dims, id).value;
      var p := ParentKey(dims[k]);
      assert Up(t, id) == p;
      AcyclicStops(dims, p);
      assert IdAfter(t, id, Rank(dims, p) + 1) == IdAfter(t, p, Rank(dims, p));
      HaltedStays(t, id, Rank(dims, p) + 1, k + 1);
    }
  }

  /** Where links point backwards, every walk ends. */
  lemma AcyclicWalkEnds(dims: seq<Dimension>, id: string)
    requires Acyclic(dims)
    ensures WalkEnds(Links(dims), id)
  {
    AcyclicStops(dims, id);
  }

  /** Adding an entry under a key nothing links to changes no pass of a walk
      from another id. */
  lemma {:induction false} WalkAddOther(t: map<string, Dimension>, key: string, d: Dimension, id: string, n: nat)
    requires key != "" && key !in t && forall x :: x in t ==> ParentKey(t[x]) != key
    requires id != key
    ensures IdAfter(t[key := d], id, n) == IdAfter(t, id, n) != key
    ensures Walk(t[key := d], id, n) == Walk(t, id, n)
    decreases n
  {
    assert Up(t[key := d], id) == Up(t, id) != key;
    if n > 0 {
      WalkAddOther(t, key, d, Up(t, id), n - 1);
    }
  }

  /** `dimensions.filter(d => d.parentId === id)`. */
  function Children(dims: seq<Dimension>, id: string): (r: seq<Dimension>)
    ensures |r| <= |dims|
    ensures forall d :: d in r <==> d in dims && d.parentId == Some(id)
    ensures |dims| == 1 ==> r == if dims[0].parentId == Some(id) then dims else []
  {
    if dims == [] then []
    else
      var init, d := dims[..|dims| - 1], dims[|dims| - 1];
      assert dims == init + [d];
      if d.parentId == Some(id) then Children(init, id) + [d] else Children(init, id)
  }

  /** The filter keeps list order: the children of a concatenation are the
      children of the first part followed by those of the second. */
  lemma {:induction false} ChildrenAppend(a: seq<Dimension>, b: seq<Dimension>, id: string)
    ensures Children(a + b, id) == Children(a, id) + Children(b, id)
  {
    if b != [] {
      var init := b[..|b| - 1];
      assert (a + b)[..|a + b| - 1] == a + init;
      ChildrenAppend(a, init, id);
    } else {
      assert a + b == a;
    }
  }

  /** Every cut of the list splits its children the same way. */
  lemma ChildrenOrder(dims: seq<Dimension>, id: string)
    ensures forall k :: 0 <= k <= |dims| ==> Children(dims, id) == Children(dims[..k], id) + Children(dims[k..], id)
  {
    forall k | 0 <= k <= |dims|
      ensures Children(dims, id) == Children(dims[..k], id) + Children(dims[k..], id)
    {
      assert dims == dims[..k] + dims[k..];
      ChildrenAppend(dims[..k], dims[k..], id);
    }
  }

  /** A dimension is the parent of each child the filter reports, and each child's
      chain runs through its parent's. */
  lemma ChildExtendsAncestry(dims: seq<Dimension>, id: string, c: Dimension)
    requires WalkEnds(Links(dims), id)
    requires c in Children(dims, id) && c.id != ""
    requires FindDim(dims, c.id).Some? && dims[FindDim(dims, c.id).value] == c
    ensures WalkEnds(Links(dims), c.id)
    ensures Ancestry(Links(dims), c.id) == Ancestry(Links(dims), id) + [c]
  {
    assert ParentKey(c) == id;
    LinksFind(dims, c.id);
    AncestryStep(Links(dims), c.id);
  }

  // ---------------------------------------------------------------------------
  // The user merge of `mergeDimensions`.

  /** The target's users in order, then each source user whose id is not yet
      in the growing list. */
  function MergeUsers(target: seq<User>, source: seq<User>): (r: seq<User>)
    ensures |target| <= |r| <= |target| + |source|
    ensures r[..|target|] == target
  {
    if source == [] then target
    else
      var m := MergeUsers(target, source[..|source| - 1]);
      var u := source[|source| - 1];
      if FindUser(m, u.id).None? then
        assert (m + [u])[..|target|] == m[..|target|];
        m + [u]
      else m
  }

  /** Every merged user comes from the target or the source, and an id is in
      the result exactly when it is in the target or in the source. */
  lemma {:induction false} MergeUsersIds(target: seq<User>, source: seq<User>)
    ensures forall u :: u in MergeUsers(target, source) ==> u in target || u in source
    ensures forall id :: id in Ids(MergeUsers(target, source)) <==> id in Ids(target) || id in Ids(source)
  {
    if source != [] {
      var init, u := source[..|source| - 1], source[|source| - 1];
      var m := MergeUsers(target, init);
      MergeUsersIds(target, init);
      assert source == init + [u];
      assert Ids(source) == Ids(init) + [u.id];
      if FindUser(m, u.id).None? {
        assert Ids(m + [u]) == Ids(m) + [u.id];
      } else {
        var k := FindUser(m, u.id).value;
        assert Ids(m)[k] == u.id;
      }
    }
  }

  /** The merged list has no repeated id when the target has none: on a
      collision the target's user wins and later source copies are dropped. */
  lemma {:induction false} MergeUsersDistinct(target: seq<User>, source: seq<User>)
    requires DistinctIds(target)
    ensures DistinctIds(MergeUsers(target, source))
  {
    if source != [] {
      var init := source[..|source| - 1];
      MergeUsersDistinct(target, init);
    }
  }

  /** Merging a snapshot into itself gives it back unchanged. */
  lemma {:induction false} MergeUsersSelf(users: seq<User>, prefix: nat)
    requires prefix <= |users|
    ensures MergeUsers(users, users[..prefix]) == users
  {
    if prefix > 0 {
      var init := users[..prefix][..prefix - 1];
      assert init == users[..prefix - 1];
      MergeUsersSelf(users, prefix - 1);
      FindUserIn(users, users[prefix - 1]);
    }
  }

  /** One more source user either leaves the merge as it was or is appended
      to it; when appended, its id occurs first at the end of the source and
      nowhere in the target. */
  lemma MergeUsersSnoc(target: seq<User>, init: seq<User>, u: User)
    ensures var m, r := MergeUsers(target, init), MergeUsers(target, init + [u]);
      r == m || (r == m + [u] && u.id !in Ids(target) && FirstIndex(Ids(init + [u]), u.id) == |init|)
    ensures Ids(init + [u]) == Ids(init) + [u.id]
  {
    var source := init + [u];
    assert source[..|source| - 1] == init;
    var m := MergeUsers(target, init);
    if FindUser(m, u.id).None? {
      MergeUsersIds(target, init);
      assert u.id !in Ids(init) && u.id !in Ids(target);
      assert Ids(source)[|init|] == u.id;
    }
  }

  /** The user the merge appended at position `i` is the first source user
      with its id, and its id is not in the target. */
  lemma {:induction false} MergeUsersFirstAt(target: seq<User>, source: seq<User>, i: nat)
    requires |target| <= i < |MergeUsers(target, source)|
    ensures var u := MergeUsers(target, source)[i];
      u.id in Ids(source) && u.id !in Ids(target) && u == source[FirstIndex(Ids(source), u.id)]
  {
    var init, u := source[..|source| - 1], source[|source| - 1];
    var m := MergeUsers(target, init);
    assert source == init + [u];
    MergeUsersSnoc(target, init, u);
    if i < |m| {
      MergeUsersFirstAt(target, init, i);
      FirstIndexPrefix(Ids(init), u.id, m[i].id);
    }
  }

  /** Each user the merge appends is the first source user with its id, and
      its id is not in the target: a later source user with a repeated id is
      dropped. */
  lemma MergeUsersFirst(target: seq<User>, source: seq<User>)
    ensures forall i :: |target| <= i < |MergeUsers(target, source)| ==>
      var u := MergeUsers(target, source)[i];
      u.id in Ids(source) && u.id !in Ids(target) && u == source[FirstIndex(Ids(source), u.id)]
  {
    forall i | |target| <= i < |MergeUsers(target, source)|
      ensures var u := MergeUsers(target, source)[i];
        u.id in Ids(source) && u.id !in Ids(target) && u == source[FirstIndex(Ids(source), u.id)]
    {
      MergeUsersFirstAt(target, source, i);
    }
  }

  /** Two appended users keep the order of their first occurrences in the source. */
  lemma {:induction false} MergeUsersOrderAt(target: seq<User>, source: seq<User>, i: nat, j: nat)
    requires |target| <= i < j < |MergeUsers(target, source)|
    ensures var u, w := MergeUsers(target, source)[i], MergeUsers(target, source)[j];
      u.id in Ids(source) && w.id in Ids(source) && FirstIndex(Ids(source), u.id) < FirstIndex(Ids(source), w.id)
  {
    var init, u := source[..|source| - 1], source[|source| - 1];
    var m := MergeUsers(target, init);
    assert source == init + [u];
    MergeUsersSnoc(target, init, u);
    MergeUsersFirstAt(target, init, i);
    FirstIndexPrefix(Ids(init), u.id, m[i].id);
    if j < |m| {
      MergeUsersOrderAt(target, init, i, j);
      FirstIndexPrefix(Ids(init), u.id, m[j].id);
    }
  }

  /** The appended users come in the order of their first occurrence in the
      source. */
  lemma MergeUsersOrder(target: seq<User>, source: seq<User>)
    ensures forall i, j :: |target| <= i < j < |MergeUsers(target, source)| ==>
      var u, w := MergeUsers(target, source)[i], MergeUsers(target, source)[j];
      u.id in Ids(source) && w.id in Ids(source) && FirstIndex(Ids(source), u.id) < FirstIndex(Ids(source), w.id)
  {
    forall i, j | |target| <= i < j < |MergeUsers(target, source)|
      ensures var u, w := MergeUsers(target, source)[i], MergeUsers(target, source)[j];
        u.id in Ids(source) && w.id in Ids(source) && FirstIndex(Ids(source), u.id) < FirstIndex(Ids(source), w.id)
    {
      MergeUsersOrderAt(target, source, i, j);
    }
  }

  lemma FindUserIn(users: seq<User>, u: User)
    requires u in users
    ensures FindUser(users, u.id).Some?
  {
  }
}
