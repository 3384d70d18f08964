/**
 * Question synthesis of `PrettyClevrGenerator.sample_generator`: for every
 * start object, every hop count and both anchor kinds, one
 * `(anchor, n_jumps, target)` triple read off a greedy path.
 *
 * The greedy nearest-neighbour path search is not part of this model: its
 * results are an input, one path per start object, under the contract
 * `IsPath`.
 */
module Questions {
  import opened Perms
  import opened Vocabulary
  import opened Scene

  datatype Question = Question(anchor: string, hops: int, target: string)

  /** What `greedy(points, n - 1, start)` returns: `n` object indices, the first being `start`. */
  predicate IsPath(path: seq<int>, n: nat, start: nat) {
    && |path| == n
    && (n > 0 ==> path[0] == start)
    && (forall i :: 0 <= i < n ==> 0 <= path[i] < n)
  }

  /** The inputs the synthesis loop relies on: the scene's objects and one path per start object. */
  predicate WellFormed(n: int, objects: seq<Object>, paths: seq<seq<int>>) {
    && Span(n) <= |objects|
    && |paths| == Span(n)
    && (forall s :: 0 <= s < Span(n) ==> IsPath(paths[s], Span(n), s))
  }

  /** The triple the loop body appends for one `(start_idx, n_jumps, color_anchor)`. */
  function Ask(objects: seq<Object>, path: seq<int>, start: nat, hops: nat, colorAnchor: bool): Question
    requires start < |objects| && hops < |path| && 0 <= path[hops] < |objects|
  {
    var landing := objects[path[hops]];
    if colorAnchor then Question(objects[start].c, hops, landing.m)
    else Question(objects[start].m, hops, landing.c)
  }

  /** Position of `(start, hops, anchor kind k)` in the question list, the color anchor being `k == 0`. */
  function Slot(n: nat, start: nat, hops: nat, k: nat): nat {
    start * (2 * n) + 2 * hops + k
  }

  /** The questions of one start object, for the first `m` hop counts, color anchor first. */
  function Block(n: int, objects: seq<Object>, paths: seq<seq<int>>, start: nat, m: nat): (block: seq<Question>)
    requires WellFormed(n, objects, paths) && start < Span(n) && m <= Span(n)
    ensures |block| == 2 * m
  {
    if m == 0 then
      []
    else
      var hops := m - 1;
      Block(n, objects, paths, start, hops)
        + [Ask(objects, paths[start], start, hops, true), Ask(objects, paths[start], start, hops, false)]
  }

  /** The complete question blocks of the first `m` start objects. */
  function Blocks(n: int, objects: seq<Object>, paths: seq<seq<int>>, m: nat): seq<Question>
    requires WellFormed(n, objects, paths) && m <= Span(n)
  {
    if m == 0 then []
    else Blocks(n, objects, paths, m - 1) + Block(n, objects, paths, m - 1, Span(n))
  }

  /** The `questions` list of one scene. */
  function AllQuestions(n: int, objects: seq<Object>, paths: seq<seq<int>>): seq<Question>
    requires WellFormed(n, objects, paths)
  {
    Blocks(n, objects, paths, Span(n))
  }

  lemma {:induction false} BlockAt(n: int, objects: seq<Object>, paths: seq<seq<int>>, start: nat, m: nat, hops: nat, k: nat)
    requires WellFormed(n, objects, paths) && start < Span(n) && m <= Span(n)
    requires hops < m && k < 2
    ensures |Block(n, objects, paths, start, m)| == 2 * m
    ensures Block(n, objects, paths, start, m)[2 * hops + k] == Ask(objects, paths[start], start, hops, k == 0)
  {
    if hops < m - 1 {
      BlockAt(n, objects, paths, start, m - 1, hops, k);
    }
  }

  lemma {:induction false} BlocksLength(n: int, objects: seq<Object>, paths: seq<seq<int>>, m: nat)
    requires WellFormed(n, objects, paths) && m <= Span(n)
    ensures |Blocks(n, objects, paths, m)| == m * (2 * Span(n))
  {
    if m > 0 {
      BlocksLength(n, objects, paths, m - 1);
      assert m * (2 * Span(n)) == (m - 1) * (2 * Span(n)) + 2 * Span(n);
    }
  }

  lemma {:induction false} BlocksAt(n: int, objects: seq<Object>, paths: seq<seq<int>>, m: nat, start: nat, w: nat)
    requires WellFormed(n, objects, paths) && m <= Span(n)
    requires start < m && w < 2 * Span(n)
    ensures start * (2 * Span(n)) + w < |Blocks(n, objects, paths, m)|
    ensures Blocks(n, objects, paths, m)[start * (2 * Span(n)) + w] == Block(n, objects, paths, start, Span(n))[w]
  {
    var size := Span(n);
    var front, block := Blocks(n, objects, paths, m - 1), Block(n, objects, paths, m - 1, size);
    assert Blocks(n, objects, paths, m) == front + block;
    BlocksLength(n, objects, paths, m - 1);
    if start < m - 1 {
      BlocksAt(n, objects, paths, m - 1, start, w);
    } else {
      assert start == m - 1 && |front| == start * (2 * size);
    }
  }

  /**
   * The list has exactly `n * n * 2` entries, ordered by start object, then
   * hop count, then color anchor before marker anchor: the entry at
   * `start * 2n + hops * 2 + k` is the question for `(start, hops, k)`.
   */
  lemma QuestionOrder(n: int, objects: seq<Object>, paths: seq<seq<int>>, start: nat, hops: nat, k: nat)
    requires WellFormed(n, objects, paths) && start < Span(n) && hops < Span(n) && k < 2
    ensures |AllQuestions(n, objects, paths)| == Span(n) * Span(n) * 2
    ensures Slot(Span(n), start, hops, k) < |AllQuestions(n, objects, paths)|
    ensures AllQuestions(n, objects, paths)[Slot(Span(n), start, hops, k)] == Ask(objects, paths[start], start, hops, k == 0)
  {
    var size := Span(n);
    BlocksLength(n, objects, paths, size);
    assert size * (2 * size) == size * size * 2;
    BlocksAt(n, objects, paths, size, start, 2 * hops + k);
    BlockAt(n, objects, paths, start, size, hops, k);
  }

  /**
   * The loop of `sample_generator` that builds `questions`: one greedy path
   * per start object, then for every hop count a color-anchored and a
   * marker-anchored triple.
   */
  method Synthesize(n: int, objects: seq<Object>, paths: seq<seq<int>>) returns (questions: seq<Question>)
    requires WellFormed(n, objects, paths)
    ensures questions == AllQuestions(n, objects, paths)
  {
    questions := [];
    var start := 0;
    while start < n
      invariant 0 <= start <= Span(n)
      invariant questions == Blocks(n, objects, paths, start)
    {
      var path := paths[start];
      var hops := 0;
      while hops < n
        invariant 0 <= hops <= Span(n)
        invariant questions == Blocks(n, objects, paths, start) + Block(n, objects, paths, start, hops)
      {
        var anchors := [true, false];
        ghost var before := questions;
        for k := 0 to |anchors|
          invariant questions == before + seq(k, i requires 0 <= i < k => Ask(objects, path, start, hops, anchors[i]))
        {
          var colorAnchor := anchors[k];
          var target := path[hops];
          var question;
          if colorAnchor {
            question := Question(objects[start].c, hops, objects[target].m);
          } else {
            question := Question(objects[start].m, hops, objects[target].c);
          }
          questions := questions + [question];
        }
        hops := hops + 1;
      }
      start := start + 1;
    }
  }

  /**
   * What a question says: a color-anchored one asks for the marker of the
   * object `hops` steps along the start object's path, a marker-anchored one
   * for its color; the hop count lies in `0 .. n-1`.
   */
  lemma QuestionContents(n: int, objects: seq<Object>, paths: seq<seq<int>>, start: nat, hops: nat, k: nat)
    requires WellFormed(n, objects, paths) && start < Span(n) && hops < Span(n) && k < 2
    ensures Slot(Span(n), start, hops, k) < |AllQuestions(n, objects, paths)|
    ensures var question := AllQuestions(n, objects, paths)[Slot(Span(n), start, hops, k)];
      && 0 <= question.hops == hops < Span(n)
      && question.anchor == (if k == 0 then objects[start].c else objects[start].m)
      && question.target == (if k == 0 then objects[paths[start][hops]].m else objects[paths[start][hops]].c)
  {
    QuestionOrder(n, objects, paths, start, hops, k);
  }

  /**
   * A path begins at its start object, so the zero-hop questions pair an
   * object's own color with its own marker, in both directions.
   */
  lemma ZeroHopQuestions(n: int, objects: seq<Object>, paths: seq<seq<int>>, start: nat)
    requires WellFormed(n, objects, paths) && start < Span(n)
    ensures Slot(Span(n), start, 0, 1) < |AllQuestions(n, objects, paths)|
    ensures AllQuestions(n, objects, paths)[Slot(Span(n), start, 0, 0)] == Question(objects[start].c, 0, objects[start].m)
    ensures AllQuestions(n, objects, paths)[Slot(Span(n), start, 0, 1)] == Question(objects[start].m, 0, objects[start].c)
  {
    QuestionOrder(n, objects, paths, start, 0, 0);
    QuestionOrder(n, objects, paths, start, 0, 1);
  }

  /** Every anchor and every target of a question is the color or the marker of some object. */
  lemma {:induction false} QuestionsUseSymbols(n: int, objects: seq<Object>, paths: seq<seq<int>>, m: nat, alphabet: set<string>)
    requires WellFormed(n, objects, paths) && m <= Span(n)
    requires forall i :: 0 <= i < |objects| ==> objects[i].c in alphabet && objects[i].m in alphabet
    ensures forall q :: 0 <= q < |Blocks(n, objects, paths, m)| ==>
      Blocks(n, objects, paths, m)[q].anchor in alphabet && Blocks(n, objects, paths, m)[q].target in alphabet
  {
    if m > 0 {
      QuestionsUseSymbols(n, objects, paths, m - 1, alphabet);
      BlockUsesSymbols(n, objects, paths, m - 1, Span(n), alphabet);
      var front: seq<Question>, block: seq<Question> := Blocks(n, objects, paths, m - 1), Block(n, objects, paths, m - 1, Span(n));
      forall q | 0 <= q < |front + block|
        ensures (front + block)[q].anchor in alphabet && (front + block)[q].target in alphabet
      {
        if q >= |front| {
          assert (front + block)[q] == block[q - |front|];
        }
      }
    }
  }

  lemma {:induction false} BlockUsesSymbols(n: int, objects: seq<Object>, paths: seq<seq<int>>, start: nat, m: nat, alphabet: set<string>)
    requires WellFormed(n, objects, paths) && start < Span(n) && m <= Span(n)
    requires forall i :: 0 <= i < |objects| ==> objects[i].c in alphabet && objects[i].m in alphabet
    ensures forall q :: 0 <= q < 2 * m ==>
      Block(n, objects, paths, start, m)[q].anchor in alphabet && Block(n, objects, paths, start, m)[q].target in alphabet
  {
    if m > 0 {
      BlockUsesSymbols(n, objects, paths, start, m - 1, alphabet);
    }
  }

  /**
   * One pass of `PrettyClevrGenerator.sample_generator`'s endless loop, the
   * rendering left out: the objects of a scene built from the sampled
   * positions (`get_object_positions` yields `n` of them, or a single one
   * when `n < 1`) and the color shuffle, then the scene's questions.
   */
  method SampleScene(g: Generator, positions: seq<Point>, perm: seq<int>, paths: seq<seq<int>>)
    returns (objects: seq<Object>, questions: seq<Question>)
    requires g.n <= |Colors|
    requires |positions| == if g.n < 1 then 1 else g.n
    requires IsPermutation(perm, |Colors|)
    requires |paths| == Span(g.n) && forall s :: 0 <= s < Span(g.n) ==> IsPath(paths[s], Span(g.n), s)
    ensures objects == Assemble(positions, perm) && |objects| == |positions|
    ensures WellFormed(g.n, objects, paths) && questions == AllQuestions(g.n, objects, paths)
  {
    AssembleObjects(positions, perm);
    objects := Zip(positions, Permuted(Colors, perm), Markers);
    questions := Synthesize(g.n, objects, paths);
  }
}
