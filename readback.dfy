/**
 * What `PrettyClevr` reads back from a split that `PrettyClevrGenerator.generate`
 * wrote, with the generator's own numbering `s2i` as `dict.json`: every line
 * of `questions.csv` decodes to the question that was written, every state
 * file loads, and `sample_generator` never raises, yielding one sample per
 * question and pass.
 */
module ReadBack {
  import opened Wrappers
  import opened Perms
  import opened Vocabulary
  import opened Scene
  import opened Questions
  import opened Lines
  import opened Dataset

  /** Every color, marker, anchor and target of a scene is a symbol `s2i` numbers. */
  predicate UsesSymbols(scene: SceneOutput, s2i: map<string, int>) {
    && (forall i :: 0 <= i < |scene.objects| ==> scene.objects[i].c in s2i && scene.objects[i].m in s2i)
    && (forall j :: 0 <= j < |scene.questions| ==>
          scene.questions[j].anchor in s2i && scene.questions[j].target in s2i)
  }

  lemma SymbolListSafe()
    ensures forall i :: 0 <= i < |Symbols| ==> SafeField(Symbols[i])
  {
    forall i | 0 <= i < |Symbols| ensures SafeField(Symbols[i]) {
      PlainFieldSafe(Symbols[i]);
    }
  }

  /** Every symbol survives being written as a field of `questions.csv` and read back. */
  lemma SymbolsSafe()
    ensures forall s :: s in S2I ==> SafeField(s)
  {
    VocabularyNumbering();
    SymbolListSafe();
    forall s | s in S2I ensures SafeField(s) {
      var i :| 0 <= i < |Symbols| && Symbols[i] == s;
    }
  }

  /** The scenes `sample_generator` builds only ever name the sixteen symbols. */
  lemma SampledSceneUsesSymbols(n: int, positions: seq<Point>, perm: seq<int>, paths: seq<seq<int>>)
    requires IsPermutation(perm, |Colors|) && WellFormed(n, Assemble(positions, perm), paths)
    ensures UsesSymbols(SceneOutput(Assemble(positions, perm), AllQuestions(n, Assemble(positions, perm), paths)), S2I)
  {
    AssembleObjects(positions, perm);
    var objects := Assemble(positions, perm);
    forall i | 0 <= i < |objects| ensures objects[i].c in S2I && objects[i].m in S2I {
      assert Symbols[perm[i]] == Colors[perm[i]];
      assert Symbols[|Colors| + i] == Markers[i];
      SymbolNumber(perm[i]);
      SymbolNumber(|Colors| + i);
    }
    QuestionsUseSymbols(n, objects, paths, Span(n), S2I.Keys);
  }

  /**
   * The state file of a sampled scene loads: object `i` gets color index
   * `perm[i]` (its place in `colors`) and marker index `8 + i` (its place in
   * `colors + markers`), at its own position.
   */
  lemma LoadSampledState(positions: seq<Point>, perm: seq<int>)
    requires IsPermutation(perm, |Colors|)
    ensures LoadState(Assemble(positions, perm), S2I).Success?
    ensures var state := LoadState(Assemble(positions, perm), S2I).value;
      && state.positions == PositionsOf(Assemble(positions, perm))
      && |state.colors| == |state.markers| == |Assemble(positions, perm)|
      && forall i :: 0 <= i < |Assemble(positions, perm)| ==> state.colors[i] == perm[i] && state.markers[i] == |Colors| + i
  {
    AssembleObjects(positions, perm);
    var objects := Assemble(positions, perm);
    forall i | 0 <= i < |objects| ensures objects[i].c in S2I && S2I[objects[i].c] == perm[i]
      && objects[i].m in S2I && S2I[objects[i].m] == |Colors| + i
    {
      assert Symbols[perm[i]] == Colors[perm[i]];
      assert Symbols[|Colors| + i] == Markers[i];
      SymbolNumber(perm[i]);
      SymbolNumber(|Colors| + i);
    }
  }

  /** A state file naming only symbols loads. */
  lemma LoadStateOfSymbols(scene: SceneOutput, s2i: map<string, int>)
    requires UsesSymbols(scene, s2i)
    ensures LoadState(scene.objects, s2i).Success?
  {
  }

  /**
   * Loading the state files written for the scenes, in whatever order `glob`
   * lists them (`order`), succeeds and gives one entry per file: each
   * scene's state under its own `%05d.json` name.
   */
  lemma LoadWrittenStates(scenes: seq<SceneOutput>, s2i: map<string, int>, order: seq<int>)
    requires forall i :: 0 <= i < |scenes| ==> UsesSymbols(scenes[i], s2i)
    requires IsPermutation(order, |scenes|)
    ensures StatesOf(Permuted(StateFiles(scenes, |scenes|), order), s2i, |scenes|).Success?
    ensures var states := StatesOf(Permuted(StateFiles(scenes, |scenes|), order), s2i, |scenes|).value;
      && |states| == |scenes|
      && (forall i :: 0 <= i < |scenes| ==>
            StateName(i) in states && LoadState(scenes[i].objects, s2i).Success?
            && states[StateName(i)] == LoadState(scenes[i].objects, s2i).value)
  {
    var files := Permuted(StateFiles(scenes, |scenes|), order);
    ListedStateFiles(scenes, s2i, order);
    StatesOfDistinct(files, s2i);
    var states := StatesOf(files, s2i, |scenes|).value;
    forall i | 0 <= i < |scenes|
      ensures StateName(i) in states && states[StateName(i)] == LoadState(scenes[i].objects, s2i).value
    {
      var k := PositionOf(order, |scenes|, i);
      assert files[k] == (StateName(i), scenes[i].objects);
    }
  }

  /** The state files in `glob` order: file `k` is that of scene `order[k]`; each loads; the names are distinct. */
  lemma ListedStateFiles(scenes: seq<SceneOutput>, s2i: map<string, int>, order: seq<int>)
    requires forall i :: 0 <= i < |scenes| ==> UsesSymbols(scenes[i], s2i)
    requires IsPermutation(order, |scenes|)
    ensures var files := Permuted(StateFiles(scenes, |scenes|), order);
      && |files| == |scenes|
      && (forall k :: 0 <= k < |files| ==>
            files[k] == (StateName(order[k]), scenes[order[k]].objects) && LoadState(files[k].1, s2i).Success?)
      && (forall k, l :: 0 <= k < l < |files| ==> files[k].0 != files[l].0)
  {
    var files := Permuted(StateFiles(scenes, |scenes|), order);
    forall k | 0 <= k < |files|
      ensures files[k] == (StateName(order[k]), scenes[order[k]].objects) && LoadState(files[k].1, s2i).Success?
    {
      LoadStateOfSymbols(scenes[order[k]], s2i);
    }
    forall k, l | 0 <= k < l < |files| ensures files[k].0 != files[l].0 {
      NamesDistinct(order[k], order[l]);
    }
  }

  /**
   * A written line of `questions.csv` decodes to the sample of the question
   * it was written from, when its image and its state were loaded: the
   * anchor and the target come back as their `s2i` numbers, the hop count
   * as the number that was written.
   */
  lemma DecodeWrittenRow(i: nat, q: Question, images: map<string, Image>, states: map<string, State>,
                         s2i: map<string, int>)
    requires q.anchor in s2i && q.target in s2i && SafeField(q.anchor) && SafeField(q.target)
    requires ImageName(i) in images && StateName(i) in states
    ensures IsLine(FormatLine(ImageName(i), StateName(i), q.anchor, q.hops, q.target))
    ensures var state := states[StateName(i)];
      DecodeRow(ParseLine(FormatLine(ImageName(i), StateName(i), q.anchor, q.hops, q.target)), images, states, s2i)
        == Success(Sample(images[ImageName(i)], state.positions, state.colors, state.markers,
                          s2i[q.anchor], q.hops, s2i[q.target]))
  {
    NamesSafe(i);
    FormattedIsLine(ImageName(i), StateName(i), q.anchor, q.hops, q.target);
    LineRoundTrip(ImageName(i), StateName(i), q.anchor, q.hops, q.target);
    DecodeFields(ImageName(i), StateName(i), q.anchor, IntToDecimal(q.hops), q.target, q.hops, images, states, s2i);
  }

  /** For each line of the question file, the scene and the question it was written for. */
  function Origins(scenes: seq<SceneOutput>, m: nat): seq<(nat, nat)>
    requires m <= |scenes|
  {
    if m == 0 then []
    else Origins(scenes, m - 1) + seq(|scenes[m - 1].questions|, j requires 0 <= j < |scenes[m - 1].questions| => (m - 1, j))
  }

  /** Line `k` of the question file is the line written for question `Origins[k].1` of scene `Origins[k].0`. */
  lemma {:induction false} WrittenLinesOrigin(scenes: seq<SceneOutput>, m: nat)
    requires m <= |scenes|
    ensures |Origins(scenes, m)| == |QuestionFile(scenes, m)|
    ensures forall k :: 0 <= k < |QuestionFile(scenes, m)| ==>
      var (i, j) := Origins(scenes, m)[k];
      i < m && j < |scenes[i].questions| && QuestionFile(scenes, m)[k] == SceneLines(i, scenes[i].questions)[j]
  {
    if m > 0 {
      WrittenLinesOrigin(scenes, m - 1);
      var front := QuestionFile(scenes, m - 1);
      var lines := SceneLines(m - 1, scenes[m - 1].questions);
      var all := QuestionFile(scenes, m);
      var origins := Origins(scenes, m);
      var before := Origins(scenes, m - 1);
      assert all == front + lines;
      forall k | 0 <= k < |all|
        ensures origins[k].0 < m && origins[k].1 < |scenes[origins[k].0].questions|
          && all[k] == SceneLines(origins[k].0, scenes[origins[k].0].questions)[origins[k].1]
      {
        if k >= |front| {
          assert all[k] == lines[k - |front|];
          assert origins[k] == (m - 1, k - |front|);
        } else {
          assert all[k] == front[k];
          assert origins[k] == before[k];
        }
      }
    }
  }

  /** Every line written for the scenes is a whole line and decodes. */
  lemma WrittenLinesDecode(scenes: seq<SceneOutput>, images: map<string, Image>, states: map<string, State>,
                           s2i: map<string, int>)
    requires forall i :: 0 <= i < |scenes| ==> UsesSymbols(scenes[i], s2i)
    requires forall i :: 0 <= i < |scenes| ==> ImageName(i) in images && StateName(i) in states
    requires forall s :: s in s2i ==> SafeField(s)
    ensures forall k :: 0 <= k < |QuestionFile(scenes, |scenes|)| ==>
      IsLine(QuestionFile(scenes, |scenes|)[k])
      && DecodeRow(ParseLine(QuestionFile(scenes, |scenes|)[k]), images, states, s2i).Success?
  {
    var lines := QuestionFile(scenes, |scenes|);
    WrittenLinesOrigin(scenes, |scenes|);
    forall k | 0 <= k < |lines|
      ensures IsLine(lines[k]) && DecodeRow(ParseLine(lines[k]), images, states, s2i).Success?
    {
      var (i, j) := Origins(scenes, |scenes|)[k];
      DecodeWrittenRow(i, scenes[i].questions[j], images, states, s2i);
    }
  }

  /** Reading `questions.csv` back gives one row per written line, and every row decodes. */
  lemma ReadQuestionsDecode(scenes: seq<SceneOutput>, images: map<string, Image>, states: map<string, State>,
                            s2i: map<string, int>)
    requires forall i :: 0 <= i < |scenes| ==> UsesSymbols(scenes[i], s2i)
    requires forall i :: 0 <= i < |scenes| ==> ImageName(i) in images && StateName(i) in states
    requires forall s :: s in s2i ==> SafeField(s)
    ensures |LoadQuestions(Concat(QuestionFile(scenes, |scenes|)))| == |QuestionFile(scenes, |scenes|)|
    ensures var questions := LoadQuestions(Concat(QuestionFile(scenes, |scenes|)));
      forall k :: 0 <= k < |questions| ==> DecodeRow(questions[k], images, states, s2i).Success?
  {
    var lines := QuestionFile(scenes, |scenes|);
    WrittenLinesDecode(scenes, images, states, s2i);
    LoadWrittenQuestions(lines);
    var questions := LoadQuestions(Concat(lines));
    forall k | 0 <= k < |questions| ensures DecodeRow(questions[k], images, states, s2i).Success? {
      assert questions[k] == ParseLine(lines[k]);
    }
  }

  /**
   * The sample line `k` of `questions.csv` was written for: the image and the
   * loaded state of its scene, the `s2i` numbers of the question's anchor and
   * target, and its hop count; `None` when one of those is not there.
   */
  function WrittenSample(scenes: seq<SceneOutput>, images: map<string, Image>, states: map<string, State>,
                         s2i: map<string, int>, k: nat): Option<Sample>
  {
    var origins := Origins(scenes, |scenes|);
    if k >= |origins| then None
    else
      var (i, j) := origins[k];
      if i < |scenes| && j < |scenes[i].questions| && ImageName(i) in images && StateName(i) in states
         && scenes[i].questions[j].anchor in s2i && scenes[i].questions[j].target in s2i
      then
        var q, state := scenes[i].questions[j], states[StateName(i)];
        Some(Sample(images[ImageName(i)], state.positions, state.colors, state.markers,
                    s2i[q.anchor], q.hops, s2i[q.target]))
      else None
  }

  /** Line `k` of `questions.csv` is a whole line and decodes to the sample of the question written on it. */
  lemma WrittenLineAt(scenes: seq<SceneOutput>, images: map<string, Image>, states: map<string, State>,
                      s2i: map<string, int>, k: nat)
    requires forall i :: 0 <= i < |scenes| ==> UsesSymbols(scenes[i], s2i)
    requires forall i :: 0 <= i < |scenes| ==> ImageName(i) in images && StateName(i) in states
    requires forall s :: s in s2i ==> SafeField(s)
    requires k < |QuestionFile(scenes, |scenes|)|
    ensures IsLine(QuestionFile(scenes, |scenes|)[k])
    ensures WrittenSample(scenes, images, states, s2i, k).Some?
    ensures DecodeRow(ParseLine(QuestionFile(scenes, |scenes|)[k]), images, states, s2i)
         == Success(WrittenSample(scenes, images, states, s2i, k).value)
  {
    WrittenLinesOrigin(scenes, |scenes|);
    var (i, j) := Origins(scenes, |scenes|)[k];
    DecodeWrittenRow(i, scenes[i].questions[j], images, states, s2i);
  }

  /** Row `k` read back from `questions.csv` decodes to the sample of the question written on line `k`. */
  lemma ReadQuestionAt(scenes: seq<SceneOutput>, images: map<string, Image>, states: map<string, State>,
                       s2i: map<string, int>, k: nat)
    requires forall i :: 0 <= i < |scenes| ==> UsesSymbols(scenes[i], s2i)
    requires forall i :: 0 <= i < |scenes| ==> ImageName(i) in images && StateName(i) in states
    requires forall s :: s in s2i ==> SafeField(s)
    requires k < |QuestionFile(scenes, |scenes|)|
    ensures |LoadQuestions(Concat(QuestionFile(scenes, |scenes|)))| == |QuestionFile(scenes, |scenes|)|
    ensures WrittenSample(scenes, images, states, s2i, k).Some?
    ensures DecodeRow(LoadQuestions(Concat(QuestionFile(scenes, |scenes|)))[k], images, states, s2i)
         == Success(WrittenSample(scenes, images, states, s2i, k).value)
  {
    var lines := QuestionFile(scenes, |scenes|);
    WrittenLinesDecode(scenes, images, states, s2i);
    LoadWrittenQuestions(lines);
    WrittenLineAt(scenes, images, states, s2i, k);
  }

  /**
   * Reading back a split written from `scenes`: the question file gives one
   * row per written question, the state files load in any `glob` order
   * (`order`), and `sample_generator`
   * over the first `passes` passes raises nothing and yields exactly one
   * sample per row it visits, `passes` times the number of questions. The
   * sample yielded `t`-th in pass `p` is the one line `perms[p][t]` was
   * written for.
   */
  lemma ReadBackSplit(scenes: seq<SceneOutput>, images: map<string, Image>, order: seq<int>, perms: seq<seq<int>>,
                      passes: nat)
    requires forall i :: 0 <= i < |scenes| ==> UsesSymbols(scenes[i], S2I) && ImageName(i) in images
    requires IsPermutation(order, |scenes|)
    requires passes <= |perms| && Orders(perms, |QuestionFile(scenes, |scenes|)|)
    ensures |LoadQuestions(Concat(QuestionFile(scenes, |scenes|)))| == |QuestionFile(scenes, |scenes|)|
    ensures StatesOf(Permuted(StateFiles(scenes, |scenes|), order), S2I, |scenes|).Success?
    ensures var questions := LoadQuestions(Concat(QuestionFile(scenes, |scenes|)));
      var states := StatesOf(Permuted(StateFiles(scenes, |scenes|), order), S2I, |scenes|).value;
      var (samples, failure) := DecodeStream(Rows(questions, perms, passes), images, states, S2I);
      && failure == None && |samples| == passes * |questions|
      && forall p, t :: 0 <= p < passes && 0 <= t < |questions| ==>
           && Visit(|questions|, p, t) < |samples|
           && WrittenSample(scenes, images, states, S2I, perms[p][t]) == Some(samples[Visit(|questions|, p, t)])
  {
    LoadWrittenStates(scenes, S2I, order);
    var states := StatesOf(Permuted(StateFiles(scenes, |scenes|), order), S2I, |scenes|).value;
    SymbolsSafe();
    ReadQuestionsDecode(scenes, images, states, S2I);
    var questions := LoadQuestions(Concat(QuestionFile(scenes, |scenes|)));
    CompleteStream(questions, images, states, S2I, perms, passes);
    ReadBackVisits(scenes, images, states, perms, passes);
  }

  /** The sample yielded `t`-th in pass `p` is the one line `perms[p][t]` of `questions.csv` was written for. */
  lemma ReadBackVisits(scenes: seq<SceneOutput>, images: map<string, Image>, states: map<string, State>,
                       perms: seq<seq<int>>, passes: nat)
    requires forall i :: 0 <= i < |scenes| ==> UsesSymbols(scenes[i], S2I) && ImageName(i) in images
    requires forall i :: 0 <= i < |scenes| ==> StateName(i) in states
    requires |LoadQuestions(Concat(QuestionFile(scenes, |scenes|)))| == |QuestionFile(scenes, |scenes|)|
    requires passes <= |perms| && Orders(perms, |QuestionFile(scenes, |scenes|)|)
    requires var questions := LoadQuestions(Concat(QuestionFile(scenes, |scenes|)));
      forall k :: 0 <= k < |questions| ==> DecodeRow(questions[k], images, states, S2I).Success?
    ensures var questions := LoadQuestions(Concat(QuestionFile(scenes, |scenes|)));
      var samples := DecodeStream(Rows(questions, perms, passes), images, states, S2I).0;
      forall p, t :: 0 <= p < passes && 0 <= t < |questions| ==>
        && Visit(|questions|, p, t) < |samples|
        && WrittenSample(scenes, images, states, S2I, perms[p][t]) == Some(samples[Visit(|questions|, p, t)])
  {
    var questions := LoadQuestions(Concat(QuestionFile(scenes, |scenes|)));
    var decode := Decoder(images, states, S2I);
    DecoderSucceeds(questions, images, states, S2I);
    SymbolsSafe();
    forall p, t | 0 <= p < passes && 0 <= t < |questions|
      ensures && Visit(|questions|, p, t) < |DecodeStream(Rows(questions, perms, passes), images, states, S2I).0|
              && WrittenSample(scenes, images, states, S2I, perms[p][t])
                 == Some(DecodeStream(Rows(questions, perms, passes), images, states, S2I).0[Visit(|questions|, p, t)])
    {
      YieldVisits(questions, decode, perms, passes, p, t);
      ReadQuestionAt(scenes, images, states, S2I, perms[p][t]);
    }
  }
}
