/**
 * Writing a Pretty-CLEVR split (`PrettyClevrGenerator.generate`) and reading
 * it back (`PrettyClevr.load_data` and `PrettyClevr.sample_generator`).
 *
 * Files are values here: the question file is its text, a state file the
 * object list it holds, the image folder a map from file name to pixels.
 */
module Dataset {
  import opened Wrappers
  import opened Perms
  import opened Vocabulary
  import opened Scene
  import opened Questions
  import opened Lines

  /** A decoded `.png` image; its pixels are never inspected. */
  datatype Image = Image(pixels: seq<int>)

  /** One entry of `all_objects`: positions, color indices and marker indices of a scene. */
  datatype State = State(positions: seq<Point>, colors: seq<int>, markers: seq<int>)

  /** One yielded sample `(img, positions, colors, markers, anchor, n_jumps, target)`. */
  datatype Sample = Sample(image: Image, positions: seq<Point>, colors: seq<int>, markers: seq<int>,
                           anchor: int, hops: int, target: int)

  /** The exceptions reading can raise: a `KeyError` or a `ValueError`. */
  datatype LoadError =
    | UnknownSymbol(symbol: string)
    | WrongFieldCount(count: nat)
    | MissingImage(name: string)
    | MissingState(name: string)
    | NotAnInteger(text: string)

  /** What `next(gen)` hands to `generate`, the image left out. */
  datatype SceneOutput = SceneOutput(objects: seq<Object>, questions: seq<Question>)

  // ---------------------------------------------------------------- writing

  /** The lines `generate` writes for scene number `i` (one per question). */
  function SceneLines(i: nat, questions: seq<Question>): (lines: seq<string>)
    ensures |lines| == |questions|
  {
    seq(|questions|, j requires 0 <= j < |questions| =>
      FormatLine(ImageName(i), StateName(i), questions[j].anchor, questions[j].hops, questions[j].target))
  }

  /** The lines of `questions.csv` after the first `m` scenes. */
  function QuestionFile(scenes: seq<SceneOutput>, m: nat): seq<string>
    requires m <= |scenes|
  {
    if m == 0 then [] else QuestionFile(scenes, m - 1) + SceneLines(m - 1, scenes[m - 1].questions)
  }

  /** The state files written by the first `m` scenes, as (file name, object list). */
  function StateFiles(scenes: seq<SceneOutput>, m: nat): seq<(string, seq<Object>)>
    requires m <= |scenes|
  {
    seq(m, i requires 0 <= i < m => (StateName(i), scenes[i].objects))
  }

  lemma StateFilesStep(scenes: seq<SceneOutput>, m: nat)
    requires m < |scenes|
    ensures StateFiles(scenes, m + 1) == StateFiles(scenes, m) + [(StateName(m), scenes[m].objects)]
  {
    var before, after := StateFiles(scenes, m), StateFiles(scenes, m + 1);
    forall k | 0 <= k < m ensures after[k] == before[k] {
    }
  }

  /**
   * The loop of `generate` over `range(n)`: scene `i` is stored as
   * `states/%05d.json` and its questions are appended to `questions.csv`
   * with `png_name` and `json_name` in front.
   */
  method Generate(scenes: seq<SceneOutput>) returns (lines: seq<string>, states: seq<(string, seq<Object>)>)
    ensures lines == QuestionFile(scenes, |scenes|)
    ensures states == StateFiles(scenes, |scenes|)
  {
    lines, states := [], [];
    for i := 0 to |scenes|
      invariant lines == QuestionFile(scenes, i)
      invariant states == StateFiles(scenes, i)
    {
      var output := scenes[i];
      var pngName := ImageName(i);
      var jsonName := StateName(i);
      states := states + [(jsonName, output.objects)];
      StateFilesStep(scenes, i);
      var written := SceneLines(i, output.questions);
      lines := lines + written;
    }
  }

  // ---------------------------------------------------------------- reading

  /** The questions `load_data` reads from the text of `questions.csv`: `l.strip().split(", ")` per line. */
  function LoadQuestions(text: string): seq<seq<string>> {
    var lines := ReadLines(text);
    seq(|lines|, i requires 0 <= i < |lines| => ParseLine(lines[i]))
  }

  /** Reading back lines that each end with their only newline gives one parsed row per line. */
  lemma LoadWrittenQuestions(lines: seq<string>)
    requires forall i :: 0 <= i < |lines| ==> IsLine(lines[i])
    ensures |LoadQuestions(Concat(lines))| == |lines|
    ensures forall k :: 0 <= k < |lines| ==> LoadQuestions(Concat(lines))[k] == ParseLine(lines[k])
  {
    ReadWrittenLines(lines);
  }

  /** `keys[i]` is the first of `keys` that `s2i` lacks. */
  predicate FirstMissingAt(keys: seq<string>, s2i: map<string, int>, i: nat) {
    i < |keys| && keys[i] !in s2i && forall j :: 0 <= j < i ==> keys[j] in s2i
  }

  /** `[s2i[k] for k in keys]`: the indices, or a `KeyError` for the first unknown key. */
  function LookupAll(keys: seq<string>, s2i: map<string, int>): (r: Result<seq<int>, LoadError>)
    ensures r.Success? <==> forall i :: 0 <= i < |keys| ==> keys[i] in s2i
    ensures r.Success? ==> |r.value| == |keys| && forall i :: 0 <= i < |keys| ==> r.value[i] == s2i[keys[i]]
    ensures r.Failure? ==> exists i: nat :: FirstMissingAt(keys, s2i, i) && r.error == UnknownSymbol(keys[i])
  {
    if keys == [] then Success([])
    else if keys[0] !in s2i then
      assert FirstMissingAt(keys, s2i, 0);
      Failure(UnknownSymbol(keys[0]))
    else
      match LookupAll(keys[1..], s2i)
      case Failure(e) =>
        var i: nat :| FirstMissingAt(keys[1..], s2i, i) && e == UnknownSymbol(keys[1..][i]);
        assert FirstMissingAt(keys, s2i, i + 1);
        Failure(e)
      case Success(rest) => Success([s2i[keys[0]]] + rest)
  }

  /** The colors of the objects, in order. */
  function ColorsOf(objects: seq<Object>): seq<string> {
    seq(|objects|, i requires 0 <= i < |objects| => objects[i].c)
  }

  function MarkersOf(objects: seq<Object>): seq<string> {
    seq(|objects|, i requires 0 <= i < |objects| => objects[i].m)
  }

  function PositionsOf(objects: seq<Object>): seq<Point> {
    seq(|objects|, i requires 0 <= i < |objects| => objects[i].p)
  }

  /**
   * One state file turned into an `all_objects` entry: colors are looked up
   * first, then markers, the first unknown symbol raising.
   */
  function LoadState(objects: seq<Object>, s2i: map<string, int>): (r: Result<State, LoadError>)
    ensures r.Success? <==> forall i :: 0 <= i < |objects| ==> objects[i].c in s2i && objects[i].m in s2i
    ensures r.Success? ==>
      && r.value.positions == PositionsOf(objects)
      && |r.value.colors| == |objects| && |r.value.markers| == |objects|
      && forall i :: 0 <= i < |objects| ==> r.value.colors[i] == s2i[objects[i].c] && r.value.markers[i] == s2i[objects[i].m]
  {
    var colors := ColorsOf(objects);
    var markers := MarkersOf(objects);
    match LookupAll(colors, s2i)
    case Failure(e) =>
      var i: nat :| FirstMissingAt(colors, s2i, i) && e == UnknownSymbol(colors[i]);
      Failure(e)
    case Success(cs) =>
      match LookupAll(markers, s2i)
      case Failure(e) =>
        var i: nat :| FirstMissingAt(markers, s2i, i) && e == UnknownSymbol(markers[i]);
        Failure(e)
      case Success(ms) =>
        assert forall i :: 0 <= i < |objects| ==> colors[i] == objects[i].c && markers[i] == objects[i].m;
        Success(State(PositionsOf(objects), cs, ms))
  }

  /** `all_objects` after the first `m` state files, in `glob` order; a later file with the same name wins. */
  function StatesOf(files: seq<(string, seq<Object>)>, s2i: map<string, int>, m: nat): Result<map<string, State>, LoadError>
    requires m <= |files|
  {
    if m == 0 then Success(map[])
    else
      match StatesOf(files, s2i, m - 1)
      case Failure(e) => Failure(e)
      case Success(states) =>
        match LoadState(files[m - 1].1, s2i)
        case Failure(e) => Failure(e)
        case Success(state) => Success(states[files[m - 1].0 := state])
  }

  /** The loop of `load_data` over the state files. */
  method LoadStates(files: seq<(string, seq<Object>)>, s2i: map<string, int>) returns (r: Result<map<string, State>, LoadError>)
    ensures r == StatesOf(files, s2i, |files|)
  {
    var states: map<string, State> := map[];
    for i := 0 to |files|
      invariant StatesOf(files, s2i, i) == Success(states)
    {
      var (name, objects) := files[i];
      var loaded := LoadState(objects, s2i);
      if loaded.Failure? {
        FailureSticks(files, s2i, i + 1, |files|);
        return Failure(loaded.error);
      }
      states := states[name := loaded.value];
    }
    return Success(states);
  }

  lemma {:induction false} FailureSticks(files: seq<(string, seq<Object>)>, s2i: map<string, int>, m: nat, m': nat)
    requires m <= m' <= |files| && StatesOf(files, s2i, m).Failure?
    ensures StatesOf(files, s2i, m') == StatesOf(files, s2i, m)
    decreases m' - m
  {
    if m < m' {
      FailureSticks(files, s2i, m, m' - 1);
    }
  }

  /** The `(name, state)` pairs of the first `m` state files, when every one of them loads. */
  function LoadedPairs(files: seq<(string, seq<Object>)>, s2i: map<string, int>, m: nat): (pairs: seq<(string, State)>)
    requires m <= |files| && forall i :: 0 <= i < |files| ==> LoadState(files[i].1, s2i).Success?
    ensures |pairs| == m
  {
    seq(m, i requires 0 <= i < m => (files[i].0, LoadState(files[i].1, s2i).value))
  }

  lemma LoadedPairsStep(files: seq<(string, seq<Object>)>, s2i: map<string, int>, m: nat)
    requires 0 < m <= |files| && forall i :: 0 <= i < |files| ==> LoadState(files[i].1, s2i).Success?
    ensures DictOf(LoadedPairs(files, s2i, m))
      == DictOf(LoadedPairs(files, s2i, m - 1))[files[m - 1].0 := LoadState(files[m - 1].1, s2i).value]
  {
    var pairs := LoadedPairs(files, s2i, m);
    assert pairs[..m - 1] == LoadedPairs(files, s2i, m - 1);
  }

  /**
   * When every state file loads, the loop builds the same dict as the
   * comprehension `{name: state for name, state in pairs}`: each file's state
   * under its name, a later file overwriting an earlier one of the same name.
   */
  lemma {:induction false} StatesOfLoaded(files: seq<(string, seq<Object>)>, s2i: map<string, int>, m: nat)
    requires m <= |files| && forall i :: 0 <= i < |files| ==> LoadState(files[i].1, s2i).Success?
    ensures StatesOf(files, s2i, m) == Success(DictOf(LoadedPairs(files, s2i, m)))
  {
    if m > 0 {
      StatesOfLoaded(files, s2i, m - 1);
      LoadedPairsStep(files, s2i, m);
    }
  }

  /**
   * State files with distinct names all loaded: `all_objects` has one entry
   * per file, each file's state under its own name.
   */
  lemma StatesOfDistinct(files: seq<(string, seq<Object>)>, s2i: map<string, int>)
    requires forall i :: 0 <= i < |files| ==> LoadState(files[i].1, s2i).Success?
    requires forall i, j :: 0 <= i < j < |files| ==> files[i].0 != files[j].0
    ensures StatesOf(files, s2i, |files|).Success?
    ensures var states := StatesOf(files, s2i, |files|).value;
      && |states| == |files|
      && forall i :: 0 <= i < |files| ==>
           files[i].0 in states && states[files[i].0] == LoadState(files[i].1, s2i).value
  {
    StatesOfLoaded(files, s2i, |files|);
    var pairs := LoadedPairs(files, s2i, |files|);
    forall i, j | 0 <= i < j < |pairs| ensures Keys(pairs)[i] != Keys(pairs)[j] {
      assert Keys(pairs)[i] == files[i].0 && Keys(pairs)[j] == files[j].0;
    }
    DictOfDistinct(pairs);
    DictOfSize(pairs);
    forall i | 0 <= i < |files|
      ensures files[i].0 in DictOf(pairs) && DictOf(pairs)[files[i].0] == LoadState(files[i].1, s2i).value
    {
      assert pairs[i] == (files[i].0, LoadState(files[i].1, s2i).value);
    }
  }

  /**
   * One question row turned into a sample, as `sample_generator` does it
   * with `augment=False`: the row must hold five fields; then the image, the
   * state, the anchor, the hop count and the target are looked up in that order.
   */
  function DecodeRow(row: seq<string>, images: map<string, Image>, states: map<string, State>,
                     s2i: map<string, int>): (r: Result<Sample, LoadError>)
    ensures r.Success? ==>
      && |row| == 5 && row[0] in images && row[1] in states
      && row[2] in s2i && row[4] in s2i && ParseInt(row[3]).Some?
    ensures r.Success? ==> r.value == Sample(images[row[0]], states[row[1]].positions, states[row[1]].colors,
      states[row[1]].markers, s2i[row[2]], ParseInt(row[3]).value, s2i[row[4]])
    ensures |row| != 5 ==> r == Failure(WrongFieldCount(|row|))
  {
    if |row| != 5 then Failure(WrongFieldCount(|row|))
    else if row[0] !in images then Failure(MissingImage(row[0]))
    else if row[1] !in states then Failure(MissingState(row[1]))
    else if row[2] !in s2i then Failure(UnknownSymbol(row[2]))
    else match ParseInt(row[3])
      case None => Failure(NotAnInteger(row[3]))
      case Some(hops) =>
        if row[4] !in s2i then Failure(UnknownSymbol(row[4]))
        else
          var state := states[row[1]];
          Success(Sample(images[row[0]], state.positions, state.colors, state.markers, s2i[row[2]], hops, s2i[row[4]]))
  }

  /** Five fields that name a loaded image, a loaded state, two symbols and a number decode to their sample. */
  lemma DecodeFields(png: string, json: string, anchor: string, digits: string, target: string, hops: int,
                     images: map<string, Image>, states: map<string, State>, s2i: map<string, int>)
    requires png in images && json in states && anchor in s2i && target in s2i && ParseInt(digits) == Some(hops)
    ensures DecodeRow([png, json, anchor, digits, target], images, states, s2i)
      == Success(Sample(images[png], states[json].positions, states[json].colors, states[json].markers,
                        s2i[anchor], hops, s2i[target]))
  {
    var row := [png, json, anchor, digits, target];
    assert row[0] == png && row[1] == json && row[2] == anchor && row[3] == digits && row[4] == target;
  }

  /** One drawn order of the `n` questions per pass. */
  predicate Orders(perms: seq<seq<int>>, n: nat) {
    forall k :: 0 <= k < |perms| ==> IsPermutation(perms[k], n)
  }

  /** The rows the first `m` passes visit: pass `k` visits the questions in the order `perms[k]` draws. */
  function Rows(questions: seq<seq<string>>, perms: seq<seq<int>>, m: nat): seq<seq<string>>
    requires m <= |perms| && Orders(perms, |questions|)
  {
    if m == 0 then [] else Rows(questions, perms, m - 1) + Permuted(questions, perms[m - 1])
  }

  /** The decoding `sample_generator` applies to each row it visits. */
  function Decoder(images: map<string, Image>, states: map<string, State>, s2i: map<string, int>)
    : seq<string> -> Result<Sample, LoadError>
  {
    row => DecodeRow(row, images, states, s2i)
  }

  /** The outcome of `decode` for each of `rows`, in order. */
  function Outcomes<R, E>(decode: seq<string> -> Result<R, E>, rows: seq<seq<string>>): (outcomes: seq<Result<R, E>>)
    ensures |outcomes| == |rows|
  {
    seq(|rows|, i requires 0 <= i < |rows| => decode(rows[i]))
  }

  /**
   * What a generator yields when its rows have the given outcomes: each
   * successful value in turn, until the first failure, whose exception ends it.
   */
  function Yielded<R, E>(outcomes: seq<Result<R, E>>): (seq<R>, Option<E>)
  {
    if outcomes == [] then ([], None)
    else
      var (values, failure) := Yielded(outcomes[..|outcomes| - 1]);
      if failure.Some? then (values, failure)
      else match outcomes[|outcomes| - 1]
        case Failure(e) => (values, Some(e))
        case Success(v) => (values + [v], None)
  }

  /** The values of outcomes that all succeeded. */
  function SuccessValues<R, E>(outcomes: seq<Result<R, E>>): seq<R>
    requires forall i :: 0 <= i < |outcomes| ==> outcomes[i].Success?
  {
    seq(|outcomes|, i requires 0 <= i < |outcomes| => outcomes[i].value)
  }

  /** `i` is the first failed outcome. */
  predicate FirstFailureAt<R, E>(outcomes: seq<Result<R, E>>, i: nat) {
    i < |outcomes| && outcomes[i].Failure? && forall j :: 0 <= j < i ==> outcomes[j].Success?
  }

  /** When every row succeeds, the generator yields every value and raises nothing. */
  lemma {:induction false} YieldedAll<R, E>(outcomes: seq<Result<R, E>>)
    requires forall i :: 0 <= i < |outcomes| ==> outcomes[i].Success?
    ensures Yielded(outcomes) == (SuccessValues(outcomes), None)
  {
    if outcomes != [] {
      var front := outcomes[..|outcomes| - 1];
      YieldedAll(front);
      assert SuccessValues(outcomes) == SuccessValues(front) + [outcomes[|outcomes| - 1].value];
    }
  }

  /** The generator yields the values before the first failure, then raises it. */
  lemma YieldedUntil<R, E>(outcomes: seq<Result<R, E>>, i: nat)
    requires FirstFailureAt(outcomes, i)
    ensures Yielded(outcomes) == (SuccessValues(outcomes[..i]), Some(outcomes[i].error))
  {
    var front, upto := outcomes[..i], outcomes[..i + 1];
    assert forall j :: 0 <= j < |front| ==> front[j] == outcomes[j];
    YieldedAll(front);
    assert upto == front + [outcomes[i]];
    YieldedAppend(front, outcomes[i]);
    assert Yielded(upto) == (SuccessValues(front), Some(outcomes[i].error));
    YieldedFailureSticks(upto, outcomes[i + 1..]);
    assert upto + outcomes[i + 1..] == outcomes;
  }

  lemma {:induction false} FindFirstFailure<R, E>(outcomes: seq<Result<R, E>>, k: nat) returns (i: nat)
    requires k < |outcomes| && outcomes[k].Failure?
    ensures i <= k && FirstFailureAt(outcomes, i)
  {
    if forall j :: 0 <= j < k ==> outcomes[j].Success? {
      i := k;
    } else {
      var j :| 0 <= j < k && outcomes[j].Failure?;
      i := FindFirstFailure(outcomes, j);
    }
  }

  /**
   * A generator yields every value when every row succeeds; otherwise it
   * yields the values before the first failure and then raises that failure.
   */
  lemma YieldedMeaning<R, E>(outcomes: seq<Result<R, E>>)
    ensures Yielded(outcomes).1.None? <==> forall i :: 0 <= i < |outcomes| ==> outcomes[i].Success?
    ensures Yielded(outcomes).1.None? ==> Yielded(outcomes).0 == SuccessValues(outcomes)
    ensures Yielded(outcomes).1.Some? ==>
      exists i: nat :: FirstFailureAt(outcomes, i)
        && Yielded(outcomes).1.value == outcomes[i].error
        && Yielded(outcomes).0 == SuccessValues(outcomes[..i])
  {
    if forall i :: 0 <= i < |outcomes| ==> outcomes[i].Success? {
      YieldedAll(outcomes);
    } else {
      var k :| 0 <= k < |outcomes| && outcomes[k].Failure?;
      var i := FindFirstFailure(outcomes, k);
      YieldedUntil(outcomes, i);
    }
  }

  /** The samples yielded for `rows`, and the exception that stopped the generator, if any. */
  function DecodeStream(rows: seq<seq<string>>, images: map<string, Image>, states: map<string, State>,
                        s2i: map<string, int>): (seq<Sample>, Option<LoadError>)
  {
    Yielded(Outcomes(Decoder(images, states, s2i), rows))
  }

  /** How many passes the `while count < n_repeat or n_repeat == -1` loop makes when a consumer pulls `pulled` of them. */
  function PassCount(nRepeat: int, pulled: nat): nat {
    if nRepeat == -1 then pulled else Span(nRepeat)
  }

  lemma OutcomesAppend<R, E>(decode: seq<string> -> Result<R, E>, rows: seq<seq<string>>, more: seq<seq<string>>)
    ensures Outcomes(decode, rows + more) == Outcomes(decode, rows) + Outcomes(decode, more)
  {
  }

  lemma YieldedAppend<R, E>(outcomes: seq<Result<R, E>>, last: Result<R, E>)
    requires Yielded(outcomes).1.None?
    ensures Yielded(outcomes + [last]) == match last
      case Failure(e) => (Yielded(outcomes).0, Some(e))
      case Success(v) => (Yielded(outcomes).0 + [v], None)
  {
    assert (outcomes + [last])[..|outcomes|] == outcomes;
  }

  /** One outcome more of a pass: a value more, or the failure that ends the generator for good. */
  lemma YieldedStep<R, E>(prefix: seq<Result<R, E>>, outcomes: seq<Result<R, E>>, j: nat)
    requires j < |outcomes| && Yielded(prefix + outcomes[..j]).1.None?
    ensures outcomes[j].Success? ==>
      Yielded(prefix + outcomes[..j + 1]) == (Yielded(prefix + outcomes[..j]).0 + [outcomes[j].value], None)
    ensures outcomes[j].Failure? ==>
      Yielded(prefix + outcomes) == (Yielded(prefix + outcomes[..j]).0, Some(outcomes[j].error))
  {
    assert prefix + outcomes[..j + 1] == (prefix + outcomes[..j]) + [outcomes[j]];
    YieldedAppend(prefix + outcomes[..j], outcomes[j]);
    if outcomes[j].Failure? {
      assert prefix + outcomes == (prefix + outcomes[..j + 1]) + outcomes[j + 1..];
      YieldedFailureSticks(prefix + outcomes[..j + 1], outcomes[j + 1..]);
    }
  }

  /** Once the generator has raised, nothing that follows changes what it yielded. */
  lemma {:induction false} YieldedFailureSticks<R, E>(outcomes: seq<Result<R, E>>, more: seq<Result<R, E>>)
    requires Yielded(outcomes).1.Some?
    ensures Yielded(outcomes + more) == Yielded(outcomes)
    decreases |more|
  {
    if more != [] {
      var front := more[..|more| - 1];
      YieldedFailureSticks(outcomes, front);
      assert (outcomes + more)[..|outcomes + more| - 1] == outcomes + front;
    } else {
      assert outcomes + more == outcomes;
    }
  }

  /**
   * The inner `for` of `sample_generator`: one pass over the questions in
   * the drawn order, following the samples already yielded for `before`.
   */
  method SamplePass<R, E>(ghost done: seq<Result<R, E>>, order: seq<seq<string>>, yielded: seq<R>,
                          decode: seq<string> -> Result<R, E>)
    returns (values: seq<R>, failure: Option<E>)
    requires Yielded(done) == (yielded, None)
    ensures (values, failure) == Yielded(done + Outcomes(decode, order))
  {
    ghost var outcomes := Outcomes(decode, order);
    values, failure := yielded, None;
    assert done + outcomes[..0] == done;
    for j := 0 to |order|
      invariant (values, None) == Yielded(done + outcomes[..j])
    {
      var decoded := decode(order[j]);
      YieldedStep(done, outcomes, j);
      if decoded.Failure? {
        failure := Some(decoded.error);
        return;
      }
      values := values + [decoded.value];
    }
    assert outcomes[..|order|] == outcomes;
  }

  /**
   * The outer loop of `sample_generator`, for any decoding of a row: while
   * `count < n_repeat or n_repeat == -1`, one pass in the order `perms[count]`;
   * the model follows the `|perms|` passes a consumer pulls when `n_repeat = -1`.
   */
  method Passes<R, E>(questions: seq<seq<string>>, decode: seq<string> -> Result<R, E>, nRepeat: int,
                      perms: seq<seq<int>>)
    returns (values: seq<R>, failure: Option<E>)
    requires Orders(perms, |questions|)
    requires nRepeat != -1 ==> Span(nRepeat) <= |perms|
    ensures (values, failure) == Yielded(Outcomes(decode, Rows(questions, perms, PassCount(nRepeat, |perms|))))
  {
    values, failure := [], None;
    var count := 0;
    ghost var total := PassCount(nRepeat, |perms|);
    ghost var done: seq<Result<R, E>> := [];
    while (count < nRepeat || nRepeat == -1) && count < |perms|
      invariant 0 <= count <= total
      invariant done == Outcomes(decode, Rows(questions, perms, count))
      invariant failure.None? && Yielded(done) == (values, None)
      decreases |perms| - count
    {
      var order := Permuted(questions, perms[count]);
      values, failure := SamplePass(done, order, values, decode);
      NextPass(questions, perms, count, decode);
      done := done + Outcomes(decode, order);
      count := count + 1;
      if failure.Some? {
        PassStops(questions, perms, count, total, decode);
        return;
      }
    }
    assert count == total;
  }

  /**
   * `PrettyClevr.sample_generator(set, n_repeat, augment=False)`: each pass
   * walks the questions in a freshly drawn order and yields one sample per
   * question; a failed lookup stops the generator with its exception.
   */
  method SampleStream(questions: seq<seq<string>>, images: map<string, Image>, states: map<string, State>,
                      s2i: map<string, int>, nRepeat: int, perms: seq<seq<int>>)
    returns (samples: seq<Sample>, failure: Option<LoadError>)
    requires Orders(perms, |questions|)
    requires nRepeat != -1 ==> Span(nRepeat) <= |perms|
    ensures (samples, failure) == DecodeStream(Rows(questions, perms, PassCount(nRepeat, |perms|)), images, states, s2i)
  {
    samples, failure := Passes(questions, Decoder(images, states, s2i), nRepeat, perms);
  }

  /** `passes` passes visit `passes * len(questions)` rows. */
  lemma {:induction false} RowsLength(questions: seq<seq<string>>, perms: seq<seq<int>>, m: nat)
    requires m <= |perms| && Orders(perms, |questions|)
    ensures |Rows(questions, perms, m)| == m * |questions|
  {
    if m > 0 {
      RowsLength(questions, perms, m - 1);
      assert (m - 1) * |questions| + |questions| == m * |questions|;
    }
  }

  /** Where, among the rows of several passes of `n` questions each, pass `p` visits its `t`-th row. */
  function Visit(n: nat, p: nat, t: nat): nat {
    p * n + t
  }

  /** Row `Visit(len(questions), p, t)` is the question pass `p` visits `t`-th, `questions[perms[p][t]]`. */
  lemma {:induction false} RowsAt(questions: seq<seq<string>>, perms: seq<seq<int>>, m: nat, p: nat, t: nat)
    requires m <= |perms| && Orders(perms, |questions|)
    requires p < m && t < |questions|
    ensures Visit(|questions|, p, t) < |Rows(questions, perms, m)|
    ensures Rows(questions, perms, m)[Visit(|questions|, p, t)] == questions[perms[p][t]]
  {
    var front, pass := Rows(questions, perms, m - 1), Permuted(questions, perms[m - 1]);
    assert Rows(questions, perms, m) == front + pass;
    RowsLength(questions, perms, m - 1);
    if p < m - 1 {
      RowsAt(questions, perms, m - 1, p, t);
    } else {
      assert p == m - 1 && |front| == p * |questions|;
    }
  }

  /** Every row the first `m` passes visit is one of `questions`. */
  lemma {:induction false} RowsFromQuestions(questions: seq<seq<string>>, perms: seq<seq<int>>, m: nat)
    requires m <= |perms| && Orders(perms, |questions|)
    ensures forall r :: 0 <= r < |Rows(questions, perms, m)| ==> Rows(questions, perms, m)[r] in questions
  {
    if m > 0 {
      RowsFromQuestions(questions, perms, m - 1);
      var front := Rows(questions, perms, m - 1);
      var pass := Permuted(questions, perms[m - 1]);
      forall r | 0 <= r < |front + pass| ensures (front + pass)[r] in questions {
        if r >= |front| {
          assert (front + pass)[r] == questions[perms[m - 1][r - |front|]];
        } else {
          assert (front + pass)[r] == front[r];
        }
      }
    }
  }

  lemma OutcomesSucceed<R, E>(decode: seq<string> -> Result<R, E>, questions: seq<seq<string>>, rows: seq<seq<string>>)
    requires forall k :: 0 <= k < |questions| ==> decode(questions[k]).Success?
    requires forall r :: 0 <= r < |rows| ==> rows[r] in questions
    ensures forall r :: 0 <= r < |rows| ==> Outcomes(decode, rows)[r].Success?
  {
    forall r | 0 <= r < |rows| ensures Outcomes(decode, rows)[r].Success? {
      assert rows[r] in questions;
      var k :| 0 <= k < |questions| && questions[k] == rows[r];
    }
  }

  /** Each pass visits every question exactly once, so `m` passes visit each one `m` times. */
  lemma {:induction false} RowsVisitEach(questions: seq<seq<string>>, perms: seq<seq<int>>, m: nat)
    requires m <= |perms| && Orders(perms, |questions|)
    ensures forall row :: multiset(Rows(questions, perms, m))[row] == m * multiset(questions)[row]
  {
    if m > 0 {
      RowsVisitEach(questions, perms, m - 1);
      PermutedMultiset(questions, perms[m - 1]);
      var front := Rows(questions, perms, m - 1);
      var pass := Permuted(questions, perms[m - 1]);
      assert Rows(questions, perms, m) == front + pass;
      assert multiset(front + pass) == multiset(front) + multiset(pass);
      forall row ensures multiset(front + pass)[row] == m * multiset(questions)[row] {
        MulSucc(m, multiset(questions)[row]);
      }
    }
  }

  lemma MulSucc(m: nat, c: nat)
    requires m > 0
    ensures (m - 1) * c + c == m * c
  {
  }

  /**
   * When every question decodes, `sample_generator` raises nothing over
   * `passes` passes and yields, in visiting order, the sample of each row it
   * visits: `passes * len(questions)` samples.
   */
  lemma CompleteStream(questions: seq<seq<string>>, images: map<string, Image>, states: map<string, State>,
                       s2i: map<string, int>, perms: seq<seq<int>>, passes: nat)
    requires passes <= |perms| && Orders(perms, |questions|)
    requires forall k :: 0 <= k < |questions| ==> DecodeRow(questions[k], images, states, s2i).Success?
    ensures var rows := Rows(questions, perms, passes);
      var (samples, failure) := DecodeStream(rows, images, states, s2i);
      && failure == None
      && |samples| == |rows| == passes * |questions|
      && forall r :: 0 <= r < |rows| ==> DecodeRow(rows[r], images, states, s2i) == Success(samples[r])
  {
    var rows := Rows(questions, perms, passes);
    RowsFromQuestions(questions, perms, passes);
    RowsLength(questions, perms, passes);
    var decode := Decoder(images, states, s2i);
    DecoderSucceeds(questions, images, states, s2i);
    OutcomesSucceed(decode, questions, rows);
    YieldedMeaning(Outcomes(decode, rows));
    DecodedOutcomes(rows, images, states, s2i);
  }

  lemma DecoderSucceeds(questions: seq<seq<string>>, images: map<string, Image>, states: map<string, State>,
                        s2i: map<string, int>)
    requires forall k :: 0 <= k < |questions| ==> DecodeRow(questions[k], images, states, s2i).Success?
    ensures forall k :: 0 <= k < |questions| ==> Decoder(images, states, s2i)(questions[k]).Success?
  {
  }

  lemma DecodedOutcomes(rows: seq<seq<string>>, images: map<string, Image>, states: map<string, State>,
                        s2i: map<string, int>)
    ensures forall r :: 0 <= r < |rows| ==>
      Outcomes(Decoder(images, states, s2i), rows)[r] == DecodeRow(rows[r], images, states, s2i)
  {
  }

  /**
   * When every question decodes, the value yielded at `Visit(len(questions), p, t)`
   * is the decoding of the question pass `p` visits `t`-th, for any decoding.
   */
  lemma YieldVisits<R, E>(questions: seq<seq<string>>, decode: seq<string> -> Result<R, E>, perms: seq<seq<int>>,
                          passes: nat, p: nat, t: nat)
    requires passes <= |perms| && Orders(perms, |questions|)
    requires forall k :: 0 <= k < |questions| ==> decode(questions[k]).Success?
    requires p < passes && t < |questions|
    ensures var values := Yielded(Outcomes(decode, Rows(questions, perms, passes))).0;
      && Visit(|questions|, p, t) < |values|
      && decode(questions[perms[p][t]]) == Success(values[Visit(|questions|, p, t)])
  {
    var rows := Rows(questions, perms, passes);
    RowsFromQuestions(questions, perms, passes);
    OutcomesSucceed(decode, questions, rows);
    RowsAt(questions, perms, passes, p, t);
    YieldedAt(Outcomes(decode, rows), Visit(|questions|, p, t));
  }

  /** When every row succeeds, value `r` yielded is the value of row `r`. */
  lemma YieldedAt<R, E>(outcomes: seq<Result<R, E>>, r: nat)
    requires forall i :: 0 <= i < |outcomes| ==> outcomes[i].Success?
    requires r < |outcomes|
    ensures r < |Yielded(outcomes).0| && Success(Yielded(outcomes).0[r]) == outcomes[r]
  {
    YieldedAll(outcomes);
  }

  /** The outcomes of `m + 1` passes are those of `m` passes followed by those of pass `m`. */
  lemma NextPass<R, E>(questions: seq<seq<string>>, perms: seq<seq<int>>, m: nat, decode: seq<string> -> Result<R, E>)
    requires m < |perms| && Orders(perms, |questions|)
    ensures Outcomes(decode, Rows(questions, perms, m + 1))
         == Outcomes(decode, Rows(questions, perms, m)) + Outcomes(decode, Permuted(questions, perms[m]))
  {
    OutcomesAppend(decode, Rows(questions, perms, m), Permuted(questions, perms[m]));
  }

  lemma {:induction false} RowsExtend(questions: seq<seq<string>>, perms: seq<seq<int>>, m: nat, m': nat)
    requires m <= m' <= |perms| && Orders(perms, |questions|)
    ensures |Rows(questions, perms, m)| <= |Rows(questions, perms, m')|
    ensures Rows(questions, perms, m') == Rows(questions, perms, m) + Rows(questions, perms, m')[|Rows(questions, perms, m)|..]
    decreases m' - m
  {
    if m < m' {
      RowsExtend(questions, perms, m, m' - 1);
    }
  }

  /** A stream that has failed after `m` passes stays failed, unchanged, whatever passes follow. */
  lemma PassStops<R, E>(questions: seq<seq<string>>, perms: seq<seq<int>>, m: nat, total: nat,
                        decode: seq<string> -> Result<R, E>)
    requires m <= total <= |perms| && Orders(perms, |questions|)
    requires Yielded(Outcomes(decode, Rows(questions, perms, m))).1.Some?
    ensures Yielded(Outcomes(decode, Rows(questions, perms, total)))
         == Yielded(Outcomes(decode, Rows(questions, perms, m)))
  {
    RowsExtend(questions, perms, m, total);
    var done := Rows(questions, perms, m);
    var rest := Rows(questions, perms, total)[|done|..];
    OutcomesAppend(decode, done, rest);
    YieldedFailureSticks(Outcomes(decode, done), Outcomes(decode, rest));
  }
}
