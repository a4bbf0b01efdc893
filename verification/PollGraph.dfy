/**
 What the references that the breadth-first inspection is compared with mean: its balls are walks,
 and the children of an id are those its record names.
 */
module PollGraph {
  import opened Strings
  import opened PollOutbound

  /** A walk along the graph from a seed. */
  ghost predicate IsWalk(g: Graph, seeds: set<string>, p: seq<string>, x: string) {
    && |p| > 0 && p[0] in seeds && p[|p| - 1] == x
    && forall i :: 0 < i < |p| ==> p[i] in g(p[i - 1])
  }

  /** The ball is what walks of at most that many steps reach. */
  lemma BallIsWalks(g: Graph, seeds: set<string>, n: nat, x: string)
    ensures x in Ball(g, seeds, n) <==> exists p :: IsWalk(g, seeds, p, x) && |p| <= n + 1
  {
    if x in Ball(g, seeds, n) {
      var p := WalkTo(g, seeds, n, x);
    }
    if p :| IsWalk(g, seeds, p, x) && |p| <= n + 1 {
      WalkStaysInBall(g, seeds, n, p, x);
    }
  }

  lemma {:induction false} WalkTo(g: Graph, seeds: set<string>, n: nat, x: string) returns (p: seq<string>)
    requires x in Ball(g, seeds, n)
    ensures IsWalk(g, seeds, p, x) && |p| <= n + 1
  {
    if n == 0 {
      p := [x];
    } else if x in Ball(g, seeds, n - 1) {
      p := WalkTo(g, seeds, n - 1, x);
    } else {
      var y :| y in Ball(g, seeds, n - 1) && x in g(y);
      var front := WalkTo(g, seeds, n - 1, y);
      p := front + [x];
    }
  }

  lemma {:induction false} WalkStaysInBall(g: Graph, seeds: set<string>, n: nat, p: seq<string>, x: string)
    requires IsWalk(g, seeds, p, x) && |p| <= n + 1
    ensures x in Ball(g, seeds, n)
    decreases |p|
  {
    if |p| == 1 {
      BallGrows(g, seeds, 0, n);
    } else {
      var front := p[..|p| - 1];
      var y := front[|front| - 1];
      WalkStaysInBall(g, seeds, n - 1, front, y);
      BallStep(g, seeds, y, n - 1);
    }
  }

  lemma {:induction false} NormalizeAllMembers(ids: seq<string>, x: string)
    ensures x in NormalizeAll(ids) <==> exists i :: 0 <= i < |ids| && With0x(ids[i]) == x
  {
    if ids != [] {
      var front := ids[..|ids| - 1];
      NormalizeAllMembers(front, x);
      if i :| 0 <= i < |ids| && With0x(ids[i]) == x {
        assert i < |front| ==> front[i] == ids[i];
      }
      if i :| 0 <= i < |front| && With0x(front[i]) == x {
        assert ids[i] == front[i];
      }
    }
  }

  /**
   The children of an id, off its record: those that the direct search finds for its external
   hashes; if it finds none, those of the fallback; none without external hashes.
   */
  lemma ChildrenOfRecord(chain: Chain, id: string, hashes: bool, direct: seq<string>, indirect: seq<string>, x: string)
    requires chain(id) == Found(hashes, direct, indirect)
    ensures x in GraphOf(chain)(id) <==>
            hashes && exists i :: 0 <= i && if direct != [] then i < |direct| && With0x(direct[i]) == x
                                            else i < |indirect| && With0x(indirect[i]) == x
  {
    NormalizeAllMembers(direct, x);
    NormalizeAllMembers(indirect, x);
  }
}
