/**
 The breadth-first inspection of `poll-outbound.ts`: starting from the universal txs of one
 Push Chain tx, follow child universal txs up to a depth.  What the chain answers for an id is
 a fixed but arbitrary function of the id.
 */
module PollOutbound {
  import opened Strings

  /** The record of one universal tx; `indirect` are the ids the fallback search finds. */
  datatype Record = NoRecord | Found(hasExternalHashes: bool, direct: seq<string>, indirect: seq<string>)

  type Chain = string -> Record

  datatype Item = Item(id: string, level: nat)

  function NormalizeAll(ids: seq<string>): set<string> {
    if ids == [] then {} else NormalizeAll(ids[..|ids| - 1]) + {With0x(ids[|ids| - 1])}
  }

  /** The ids one record leads to: the fallback is used only when the direct search is empty. */
  function ChildIds(r: Record): seq<string> {
    if r.NoRecord? || !r.hasExternalHashes then []
    else if r.direct != [] then r.direct
    else r.indirect
  }

  /** Who leads to whom. */
  type Graph = string -> set<string>

  function GraphOf(chain: Chain): Graph {
    id => NormalizeAll(ChildIds(chain(id)))
  }

  /** How far the loop goes: with a negative depth it still marks the seeds. */
  function Reach(depth: int): nat {
    if depth < 0 then 0 else depth
  }

  /** The ids at most `n` steps away from the seeds: the reference the loop is compared with. */
  function Ball(g: Graph, seeds: set<string>, n: nat): set<string> {
    if n == 0 then seeds
    else Ball(g, seeds, n - 1) + Successors(g, Ball(g, seeds, n - 1))
  }

  function Successors(g: Graph, ids: set<string>): set<string> {
    set x, c | x in ids && c in g(x) :: c
  }

  lemma {:induction false} BallGrows(g: Graph, seeds: set<string>, m: nat, n: nat)
    requires m <= n
    ensures Ball(g, seeds, m) <= Ball(g, seeds, n)
    decreases n
  {
    if m < n {
      BallGrows(g, seeds, m, n - 1);
    }
  }

  lemma BallStep(g: Graph, seeds: set<string>, x: string, n: nat)
    requires x in Ball(g, seeds, n)
    ensures g(x) <= Ball(g, seeds, n + 1)
  {
  }

  /** `x` is first reached after exactly `n` steps. */
  ghost predicate AtDistance(g: Graph, seeds: set<string>, x: string, n: nat) {
    x in Ball(g, seeds, n) && (n > 0 ==> x !in Ball(g, seeds, n - 1))
  }

  lemma NotFurther(g: Graph, seeds: set<string>, x: string, n: nat, m: nat)
    requires AtDistance(g, seeds, x, n) && x in Ball(g, seeds, m)
    ensures n <= m
  {
    if n > m {
      BallGrows(g, seeds, m, n - 1);
    }
  }

  // ---------------------------------------------------------------- the queue
  // From here on a queue is seen through `View`: with every id in normal form.

  function View(queue: seq<Item>): (r: seq<Item>)
    ensures |r| == |queue|
    ensures forall i :: 0 <= i < |r| ==> r[i] == Item(With0x(queue[i].id), queue[i].level)
  {
    if queue == [] then []
    else View(queue[..|queue| - 1]) + [Item(With0x(queue[|queue| - 1].id), queue[|queue| - 1].level)]
  }

  /** Levels never go down along the queue and take at most two values. */
  predicate Layered(queue: seq<Item>) {
    && (forall i, j :: 0 <= i < j < |queue| ==> queue[i].level <= queue[j].level)
    && (forall i :: 0 <= i < |queue| ==> queue[i].level <= queue[0].level + 1)
  }

  /** Everything queued is within reach and within the depth. */
  ghost predicate Sound(g: Graph, seeds: set<string>, depth: int, queue: seq<Item>) {
    forall i :: 0 <= i < |queue| ==>
      queue[i].id in Ball(g, seeds, queue[i].level) && queue[i].level <= Reach(depth)
  }

  /** The ids that wait in the queue at no more than `level`. */
  function Waiting(queue: seq<Item>, level: nat): set<string> {
    if queue == [] then {}
    else Waiting(queue[..|queue| - 1], level) +
         if queue[|queue| - 1].level <= level then {queue[|queue| - 1].id} else {}
  }

  lemma {:induction false} WaitingAppend(queue: seq<Item>, more: seq<Item>, level: nat)
    ensures Waiting(queue + more, level) == Waiting(queue, level) + Waiting(more, level)
  {
    if more == [] {
      assert queue + more == queue;
    } else {
      WaitingAppend(queue, more[..|more| - 1], level);
      assert (queue + more)[..|queue + more| - 1] == queue + more[..|more| - 1];
    }
  }

  lemma WaitingShift(queue: seq<Item>, level: nat)
    requires queue != []
    ensures Waiting(queue, level) <= Waiting(queue[1..], level) + {queue[0].id}
  {
    assert queue == [queue[0]] + queue[1..];
    WaitingAppend([queue[0]], queue[1..], level);
  }

  lemma {:induction false} NothingBelow(queue: seq<Item>, level: nat)
    requires forall i :: 0 <= i < |queue| ==> queue[i].level > level
    ensures Waiting(queue, level) == {}
  {
    if queue != [] {
      NothingBelow(queue[..|queue| - 1], level);
    }
  }

  // ---------------------------------------------------------------- the invariant

  /** `dist` records the level at which each visited id was processed. */
  ghost predicate Exact(g: Graph, seeds: set<string>, depth: int, dist: map<string, nat>) {
    forall x {:trigger AtDistance(g, seeds, x, dist[x])} ::
      x in dist ==> AtDistance(g, seeds, x, dist[x]) && dist[x] <= Reach(depth)
  }

  ghost predicate SeedsCovered(seeds: set<string>, dist: map<string, nat>, queue: seq<Item>) {
    seeds <= dist.Keys + Waiting(queue, 0)
  }

  ghost predicate ChildCovered(g: Graph, depth: int, dist: map<string, nat>, queue: seq<Item>, x: string) {
    x in dist && dist[x] < depth ==> g(x) <= dist.Keys + Waiting(queue, dist[x] + 1)
  }

  ghost predicate ChildrenCovered(g: Graph, depth: int, dist: map<string, nat>, queue: seq<Item>) {
    forall x :: ChildCovered(g, depth, dist, queue, x)
  }

  ghost predicate Inv(g: Graph, seeds: set<string>, depth: int, dist: map<string, nat>, queue: seq<Item>) {
    && Layered(queue)
    && Sound(g, seeds, depth, queue)
    && Exact(g, seeds, depth, dist)
    && SeedsCovered(seeds, dist, queue)
    && ChildrenCovered(g, depth, dist, queue)
  }

  /**
   Breadth-first order pays off here: once the queue holds nothing below level `l`, every id
   less than `l` steps away has been visited.
   */
  lemma {:induction false} InnerBallVisited(
    g: Graph, seeds: set<string>, depth: int, dist: map<string, nat>, queue: seq<Item>, l: nat, m: nat)
    requires Exact(g, seeds, depth, dist)
    requires SeedsCovered(seeds, dist, queue) && ChildrenCovered(g, depth, dist, queue)
    requires forall i :: 0 <= i < |queue| ==> queue[i].level >= l
    requires m < l && m <= Reach(depth)
    ensures Ball(g, seeds, m) <= dist.Keys
    decreases m
  {
    if m == 0 {
      NothingBelow(queue, 0);
    } else {
      InnerBallVisited(g, seeds, depth, dist, queue, l, m - 1);
      NextBallVisited(g, seeds, depth, dist, queue, l, m - 1);
    }
  }

  lemma NextBallVisited(
    g: Graph, seeds: set<string>, depth: int, dist: map<string, nat>, queue: seq<Item>, l: nat, m: nat)
    requires Exact(g, seeds, depth, dist) && ChildrenCovered(g, depth, dist, queue)
    requires forall i :: 0 <= i < |queue| ==> queue[i].level >= l
    requires m + 1 < l && m + 1 <= Reach(depth)
    requires Ball(g, seeds, m) <= dist.Keys
    ensures Ball(g, seeds, m + 1) <= dist.Keys
  {
    var inner := Ball(g, seeds, m);
    forall x | x in inner ensures g(x) <= dist.Keys {
      ChildrenVisited(g, seeds, depth, dist, queue, x, m);
    }
    SuccessorsInside(g, inner, dist.Keys);
  }

  lemma ChildrenVisited(
    g: Graph, seeds: set<string>, depth: int, dist: map<string, nat>, queue: seq<Item>, x: string, m: nat)
    requires Exact(g, seeds, depth, dist) && ChildCovered(g, depth, dist, queue, x)
    requires x in dist && x in Ball(g, seeds, m) && m < depth
    requires forall i :: 0 <= i < |queue| ==> queue[i].level >= m + 2
    ensures g(x) <= dist.Keys
  {
    assert AtDistance(g, seeds, x, dist[x]);
    NotFurther(g, seeds, x, dist[x], m);
    NothingBelow(queue, dist[x] + 1);
  }

  lemma SuccessorsInside(g: Graph, ids: set<string>, within: set<string>)
    requires forall x :: x in ids ==> g(x) <= within
    ensures Successors(g, ids) <= within
  {
  }

  /** Taking the head off and appending: nobody waiting is lost but the head itself. */
  lemma WaitingMoves(queue: seq<Item>, more: seq<Item>, id: string, level: nat)
    requires queue != [] && queue[0].id == id
    ensures Waiting(queue, level) + Waiting(more, level) <= {id} + Waiting(queue[1..] + more, level)
  {
    WaitingShift(queue, level);
    WaitingAppend(queue[1..], more, level);
  }

  lemma SkipKeepsInv(g: Graph, seeds: set<string>, depth: int, dist: map<string, nat>, queue: seq<Item>)
    requires Inv(g, seeds, depth, dist, queue)
    requires queue != [] && queue[0].id in dist
    ensures Inv(g, seeds, depth, dist, queue[1..])
  {
    var id := queue[0].id;
    WaitingShift(queue, 0);
    forall x ensures ChildCovered(g, depth, dist, queue[1..], x) {
      assert ChildCovered(g, depth, dist, queue, x);
      if x in dist {
        WaitingShift(queue, dist[x] + 1);
      }
    }
  }

  lemma HeadAtDistance(g: Graph, seeds: set<string>, depth: int, dist: map<string, nat>, queue: seq<Item>)
    requires Inv(g, seeds, depth, dist, queue)
    requires queue != [] && queue[0].id !in dist
    ensures AtDistance(g, seeds, queue[0].id, queue[0].level)
  {
    var level := queue[0].level;
    if level > 0 {
      InnerBallVisited(g, seeds, depth, dist, queue, level, level - 1);
    }
  }

  // ---------------------------------------------------------------- what one record pushes

  function Enqueued(ids: seq<string>, level: nat): (r: seq<Item>)
    ensures |r| == |ids|
    ensures forall i :: 0 <= i < |r| ==> r[i] == Item(With0x(ids[i]), level)
  {
    if ids == [] then [] else Enqueued(ids[..|ids| - 1], level) + [Item(With0x(ids[|ids| - 1]), level)]
  }

  lemma {:induction false} EnqueuedWaits(ids: seq<string>, level: nat)
    ensures Waiting(Enqueued(ids, level), level) == NormalizeAll(ids)
  {
    if ids != [] {
      EnqueuedWaits(ids[..|ids| - 1], level);
    }
  }

  /** The ids of a list that have not been visited. */
  function Unvisited(ids: seq<string>, visited: set<string>): (r: seq<string>)
    ensures NormalizeAll(r) == NormalizeAll(ids) - visited
  {
    if ids == [] then []
    else
      var rest := Unvisited(ids[..|ids| - 1], visited);
      var last := ids[|ids| - 1];
      if With0x(last) in visited then rest
      else
        assert (rest + [last])[..|rest|] == rest;
        rest + [last]
  }

  /** The ids the loop body pushes for an item it has just visited. */
  function Pushed(chain: Chain, id: string, level: nat, depth: int, visited: set<string>): (r: seq<string>)
    ensures NormalizeAll(r) <= GraphOf(chain)(id)
    ensures level < depth ==> GraphOf(chain)(id) <= visited + NormalizeAll(r)
    ensures level >= depth ==> r == []
  {
    var record := chain(id);
    if record.NoRecord? || level >= depth || !record.hasExternalHashes then []
    else if record.direct != [] then record.direct
    else Unvisited(record.indirect, visited)
  }

  lemma {:induction false} NormalizedMembers(ids: seq<string>)
    ensures forall k :: 0 <= k < |ids| ==> With0x(ids[k]) in NormalizeAll(ids)
  {
    if ids != [] {
      NormalizedMembers(ids[..|ids| - 1]);
    }
  }

  /** What is pushed sits one level deeper, and covers every child that has not been visited. */
  lemma PushedItems(chain: Chain, id: string, level: nat, depth: int, visited: set<string>)
    ensures NewItems(GraphOf(chain), id, level, depth, visited,
                     Enqueued(Pushed(chain, id, level, depth, visited), level + 1))
  {
    var ids := Pushed(chain, id, level, depth, visited);
    var more := Enqueued(ids, level + 1);
    NormalizedMembers(ids);
    EnqueuedWaits(ids, level + 1);
  }

  ghost predicate NewItems(g: Graph, id: string, level: nat, depth: int, visited: set<string>, more: seq<Item>) {
    && (forall k :: 0 <= k < |more| ==> more[k].level == level + 1 && more[k].id in g(id))
    && (more != [] ==> level < depth)
    && (level < depth ==> g(id) <= visited + Waiting(more, level + 1))
  }

  lemma PushKeepsLayers(queue: seq<Item>, more: seq<Item>, level: nat)
    requires Layered(queue)
    requires forall i :: 0 <= i < |queue| ==> level <= queue[i].level <= level + 1
    requires forall k :: 0 <= k < |more| ==> more[k].level == level + 1
    ensures Layered(queue + more)
  {
  }

  lemma PushKeepsSound(
    g: Graph, seeds: set<string>, depth: int, queue: seq<Item>, id: string, level: nat, visited: set<string>,
    more: seq<Item>)
    requires Sound(g, seeds, depth, queue)
    requires id in Ball(g, seeds, level)
    requires NewItems(g, id, level, depth, visited, more)
    ensures Sound(g, seeds, depth, queue + more)
  {
    BallStep(g, seeds, id, level);
  }

  lemma ChildStaysCovered(
    g: Graph, depth: int, dist: map<string, nat>, queue: seq<Item>, id: string, level: nat, more: seq<Item>, x: string)
    requires queue != [] && queue[0].id == id && id !in dist
    requires ChildCovered(g, depth, dist, queue, x)
    requires NewItems(g, id, level, depth, dist.Keys + {id}, more)
    ensures ChildCovered(g, depth, dist[id := level], queue[1..] + more, x)
  {
    assert dist[id := level].Keys == dist.Keys + {id};
    if x == id {
      WaitingMoves(queue, more, id, level + 1);
    } else if x in dist {
      WaitingMoves(queue, more, id, dist[x] + 1);
    }
  }

  lemma PushKeepsCoverage(
    g: Graph, seeds: set<string>, depth: int, dist: map<string, nat>, queue: seq<Item>, id: string, level: nat,
    more: seq<Item>)
    requires queue != [] && queue[0].id == id && id !in dist
    requires SeedsCovered(seeds, dist, queue) && ChildrenCovered(g, depth, dist, queue)
    requires NewItems(g, id, level, depth, dist.Keys + {id}, more)
    ensures SeedsCovered(seeds, dist[id := level], queue[1..] + more)
    ensures ChildrenCovered(g, depth, dist[id := level], queue[1..] + more)
  {
    assert dist[id := level].Keys == dist.Keys + {id};
    WaitingMoves(queue, more, id, 0);
    var now, next := dist[id := level], queue[1..] + more;
    forall x ensures ChildCovered(g, depth, now, next, x) {
      assert ChildCovered(g, depth, dist, queue, x);
      ChildStaysCovered(g, depth, dist, queue, id, level, more, x);
    }
  }

  lemma ExactGrows(g: Graph, seeds: set<string>, depth: int, dist: map<string, nat>, id: string, level: nat)
    requires Exact(g, seeds, depth, dist)
    requires id !in dist && AtDistance(g, seeds, id, level) && level <= Reach(depth)
    ensures Exact(g, seeds, depth, dist[id := level])
  {
    var now := dist[id := level];
    forall x | x in now ensures AtDistance(g, seeds, x, now[x]) && now[x] <= Reach(depth) {
      if x != id {
        assert AtDistance(g, seeds, x, dist[x]);
      }
    }
  }

  lemma VisitKeepsInv(
    g: Graph, seeds: set<string>, depth: int, dist: map<string, nat>, queue: seq<Item>, id: string, level: nat,
    more: seq<Item>)
    requires Inv(g, seeds, depth, dist, queue)
    requires queue != [] && queue[0].id == id && queue[0].level == level && id !in dist
    requires NewItems(g, id, level, depth, dist.Keys + {id}, more)
    ensures Inv(g, seeds, depth, dist[id := level], queue[1..] + more)
  {
    HeadAtDistance(g, seeds, depth, dist, queue);
    ExactGrows(g, seeds, depth, dist, id, level);
    PushKeepsLayers(queue[1..], more, level);
    PushKeepsSound(g, seeds, depth, queue[1..], id, level, dist.Keys + {id}, more);
    PushKeepsCoverage(g, seeds, depth, dist, queue, id, level, more);
  }

  // ---------------------------------------------------------------- the loop

  function Ids(items: seq<Item>): set<string> {
    if items == [] then {} else Ids(items[..|items| - 1]) + {items[|items| - 1].id}
  }

  lemma {:induction false} IdMembers(items: seq<Item>)
    ensures forall i :: 0 <= i < |items| ==> items[i].id in Ids(items)
  {
    if items != [] {
      IdMembers(items[..|items| - 1]);
    }
  }

  /** Each id once, at its distance from the seeds, in order of distance. */
  ghost predicate InOrder(g: Graph, seeds: set<string>, items: seq<Item>) {
    && (forall i :: 0 <= i < |items| ==> AtDistance(g, seeds, items[i].id, items[i].level))
    && (forall i, j :: 0 <= i < j < |items| ==> items[i].id != items[j].id && items[i].level <= items[j].level)
  }

  lemma OrderGrows(g: Graph, seeds: set<string>, items: seq<Item>, x: Item)
    requires InOrder(g, seeds, items) && AtDistance(g, seeds, x.id, x.level)
    requires x.id !in Ids(items) && forall i :: 0 <= i < |items| ==> items[i].level <= x.level
    ensures InOrder(g, seeds, items + [x]) && Ids(items + [x]) == Ids(items) + {x.id}
  {
    IdMembers(items);
    var more := items + [x];
    assert more[..|items|] == items;
    forall i | 0 <= i < |items| ensures more[i].id != x.id && more[i].level <= x.level {
      assert more[i] == items[i];
    }
  }

  /** Everything the loop maintains. */
  ghost predicate LoopInv(
    g: Graph, seeds: set<string>, depth: int, dist: map<string, nat>, queue: seq<Item>, inspected: seq<Item>)
  {
    && Inv(g, seeds, depth, dist, queue)
    && dist.Keys <= Ball(g, seeds, Reach(depth))
    && InOrder(g, seeds, inspected)
    && Ids(inspected) == (if depth < 0 then {} else dist.Keys)
    && NoneLater(inspected, queue)
  }

  predicate NoneLater(inspected: seq<Item>, queue: seq<Item>) {
    forall i, j :: 0 <= i < |inspected| && 0 <= j < |queue| ==> inspected[i].level <= queue[j].level
  }

  lemma SkipStep(
    g: Graph, seeds: set<string>, depth: int, dist: map<string, nat>, queue: seq<Item>, inspected: seq<Item>)
    requires LoopInv(g, seeds, depth, dist, queue, inspected)
    requires queue != [] && queue[0].id in dist
    ensures LoopInv(g, seeds, depth, dist, queue[1..], inspected)
  {
    SkipKeepsInv(g, seeds, depth, dist, queue);
  }

  lemma VisitStep(
    g: Graph, seeds: set<string>, depth: int, dist: map<string, nat>, queue: seq<Item>, inspected: seq<Item>,
    id: string, level: nat, more: seq<Item>, next: seq<Item>)
    requires LoopInv(g, seeds, depth, dist, queue, inspected)
    requires queue != [] && queue[0] == Item(id, level) && id !in dist
    requires NewItems(g, id, level, depth, dist.Keys + {id}, more)
    requires next == if level > depth then inspected else inspected + [Item(id, level)]
    ensures LoopInv(g, seeds, depth, dist[id := level], queue[1..] + more, next)
    ensures id in Ball(g, seeds, Reach(depth))
  {
    VisitKeepsInv(g, seeds, depth, dist, queue, id, level, more);
    assert dist[id := level].Keys == dist.Keys + {id};
    HeadIsNew(g, seeds, depth, dist, queue, id, level);
    OrderStep(g, seeds, depth, queue, inspected, id, level, more, next);
  }

  lemma HeadIsNew(
    g: Graph, seeds: set<string>, depth: int, dist: map<string, nat>, queue: seq<Item>, id: string, level: nat)
    requires Inv(g, seeds, depth, dist, queue)
    requires queue != [] && queue[0] == Item(id, level) && id !in dist
    ensures AtDistance(g, seeds, id, level) && id in Ball(g, seeds, Reach(depth))
    ensures level > depth ==> depth < 0
  {
    HeadAtDistance(g, seeds, depth, dist, queue);
    BallGrows(g, seeds, level, Reach(depth));
  }

  lemma FewerLeft(ball: set<string>, visited: set<string>, id: string)
    requires id in ball && id !in visited
    ensures |ball - (visited + {id})| < |ball - visited|
  {
    assert ball - (visited + {id}) == (ball - visited) - {id};
  }

  lemma OrderStep(
    g: Graph, seeds: set<string>, depth: int, queue: seq<Item>, inspected: seq<Item>,
    id: string, level: nat, more: seq<Item>, next: seq<Item>)
    requires InOrder(g, seeds, inspected) && NoneLater(inspected, queue) && Layered(queue)
    requires queue != [] && queue[0] == Item(id, level) && id !in Ids(inspected)
    requires AtDistance(g, seeds, id, level)
    requires forall k :: 0 <= k < |more| ==> more[k].level == level + 1
    requires next == if level > depth then inspected else inspected + [Item(id, level)]
    ensures InOrder(g, seeds, next) && NoneLater(next, queue[1..] + more)
    ensures Ids(next) == Ids(inspected) + if level > depth then {} else {id}
  {
    LaterStays(inspected, queue, level, more, next);
    if level <= depth {
      OrderGrows(g, seeds, inspected, Item(id, level));
    }
  }

  lemma LaterStays(inspected: seq<Item>, queue: seq<Item>, level: nat, more: seq<Item>, next: seq<Item>)
    requires NoneLater(inspected, queue) && Layered(queue) && queue != [] && queue[0].level == level
    requires forall k :: 0 <= k < |more| ==> more[k].level == level + 1
    requires next == inspected || (next != [] && next[..|next| - 1] == inspected && next[|next| - 1].level == level)
    ensures NoneLater(next, queue[1..] + more)
  {
    forall i | 0 <= i < |next| ensures next[i].level <= level {
      if next == inspected || i < |next| - 1 {
        assert next[i] == inspected[i];
      }
    }
    forall j | 0 <= j < |queue[1..] + more| ensures (queue[1..] + more)[j].level >= level {
      if j < |queue[1..]| {
        assert (queue[1..] + more)[j] == queue[j + 1];
      }
    }
  }

  lemma LoopEnd(g: Graph, seeds: set<string>, depth: int, dist: map<string, nat>, inspected: seq<Item>)
    requires LoopInv(g, seeds, depth, dist, [], inspected)
    ensures dist.Keys == Ball(g, seeds, Reach(depth))
  {
    InnerBallVisited(g, seeds, depth, dist, [], Reach(depth) + 1, Reach(depth));
  }

  /**
   The loop of `main`.  The visited ids are exactly those within `depth` steps of the seeds;
   each of them is queried once, at its distance from the seeds and in order of distance.
   With a negative depth the seeds are marked visited and nothing is queried.
   */
  method Inspect(chain: Chain, utxIds: seq<string>, depth: int) returns (visited: set<string>, inspected: seq<Item>)
    ensures visited == Ball(GraphOf(chain), NormalizeAll(utxIds), Reach(depth))
    ensures InOrder(GraphOf(chain), NormalizeAll(utxIds), inspected)
    ensures Ids(inspected) == if depth < 0 then {} else visited
  {
    ghost var seeds := NormalizeAll(utxIds);
    ghost var g, dist: map<string, nat> := GraphOf(chain), map[];
    visited, inspected := {}, [];
    var queue := Seeds(utxIds);
    ghost var view, ball := View(queue), Ball(g, seeds, Reach(depth));
    SeedsInv(g, utxIds, depth, queue);
    while queue != []
      invariant visited == dist.Keys
      invariant view == View(queue)
      invariant LoopInv(g, seeds, depth, dist, view, inspected)
      decreases |ball - visited|, |queue|
    {
      var level, id := queue[0].level, With0x(queue[0].id);
      ViewShift(queue);
      if id in visited {
        SkipStep(g, seeds, depth, dist, view, inspected);
        queue, view := queue[1..], view[1..];
        continue;
      }
      var ids := Pushed(chain, id, level, depth, visited + {id});
      ghost var more := Enqueued(ids, level + 1);
      PushedItems(chain, id, level, depth, visited + {id});
      queue := PushIds(queue[1..], ids, level + 1);
      var next := if level > depth then inspected else inspected + [Item(id, level)];
      VisitStep(g, seeds, depth, dist, view, inspected, id, level, more, next);
      FewerLeft(ball, visited, id);
      KeysGrow(dist, id, level);
      visited, dist, view, inspected := visited + {id}, dist[id := level], view[1..] + more, next;
    }
    LoopEnd(g, seeds, depth, dist, inspected);
  }

  lemma KeysGrow(dist: map<string, nat>, id: string, level: nat)
    ensures dist[id := level].Keys == dist.Keys + {id}
  {
  }

  lemma ViewShift(queue: seq<Item>)
    requires queue != []
    ensures View(queue)[1..] == View(queue[1..])
  {
  }

  method Seeds(utxIds: seq<string>) returns (queue: seq<Item>)
    ensures |queue| == |utxIds| && forall i :: 0 <= i < |queue| ==> queue[i] == Item(utxIds[i], 0)
  {
    queue := [];
    for i := 0 to |utxIds|
      invariant |queue| == i && forall k :: 0 <= k < i ==> queue[k] == Item(utxIds[k], 0)
    {
      queue := queue + [Item(utxIds[i], 0)];
    }
  }

  lemma SeedsInv(g: Graph, utxIds: seq<string>, depth: int, queue: seq<Item>)
    requires |queue| == |utxIds| && forall i :: 0 <= i < |queue| ==> queue[i] == Item(utxIds[i], 0)
    ensures LoopInv(g, NormalizeAll(utxIds), depth, map[], View(queue), [])
  {
    SeedsWait(utxIds, queue);
    SeedsSound(g, utxIds, depth, queue);
  }

  lemma SeedsSound(g: Graph, utxIds: seq<string>, depth: int, queue: seq<Item>)
    requires |queue| == |utxIds| && forall i :: 0 <= i < |queue| ==> queue[i] == Item(utxIds[i], 0)
    ensures Sound(g, NormalizeAll(utxIds), depth, View(queue)) && Layered(View(queue))
  {
    NormalizedMembers(utxIds);
    assert Ball(g, NormalizeAll(utxIds), 0) == NormalizeAll(utxIds);
  }

  lemma {:induction false} SeedsWait(utxIds: seq<string>, queue: seq<Item>)
    requires |queue| == |utxIds| && forall i :: 0 <= i < |queue| ==> queue[i] == Item(utxIds[i], 0)
    ensures Waiting(View(queue), 0) == NormalizeAll(utxIds)
  {
    if queue != [] {
      SeedsWait(utxIds[..|utxIds| - 1], queue[..|queue| - 1]);
    }
  }

  method PushIds(queue: seq<Item>, ids: seq<string>, level: nat) returns (r: seq<Item>)
    ensures View(r) == View(queue) + Enqueued(ids, level)
  {
    r := queue;
    for i := 0 to |ids|
      invariant View(r) == View(queue) + Enqueued(ids[..i], level)
    {
      assert (r + [Item(ids[i], level)])[..|r|] == r;
      r := r + [Item(ids[i], level)];
      assert ids[..i + 1][..i] == ids[..i];
    }
    assert ids[..|ids|] == ids;
  }
}
