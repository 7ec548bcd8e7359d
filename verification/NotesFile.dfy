/** The notes store of scripts/run_scenario_validation.py: a line file that every write reads
    completely and rewrites completely. */
module NotesFile {
  import opened Prelude
  import opened Sequences
  import opened Text

  /** A note written by the script, or any other JSON object found in the file. */
  datatype Body = Note(text: string, repo: string, tags: seq<string>, capturedAt: string) | Foreign(json: string)

  /** A stored object; a namespace that is absent or falsy is "". */
  datatype Row = Row(namespace: string, body: Body)

  /** The JSON library: `loads` yields nothing for malformed text and for text that is no object. */
  datatype Codec = Codec(dumps: Row -> string, loads: string -> Option<Row>)

  /** Objects are printed on one line that starts and ends with a brace, and read back. */
  ghost predicate Lawful(codec: Codec) {
    forall r ::
      && codec.loads(codec.dumps(r)) == Some(r)
      && codec.dumps(r) != "" && Clean(codec.dumps(r)) && '\n' !in codec.dumps(r)
  }

  predicate IsNewline(c: char) {
    c == '\n'
  }

  function LineRows(codec: Codec): string -> seq<Row> {
    (line: string) =>
      var raw := Strip(line);
      if raw == "" then []
      else match codec.loads(raw) case Some(row) => [row] case None => []
  }

  function ParseText(codec: Codec, text: string): seq<Row> {
    FlatMap(LineRows(codec), SplitBy(IsNewline, text))
  }

  /** The rows a reader sees; a file that does not exist has none. */
  function View(codec: Codec, file: Option<string>): seq<Row> {
    if file.None? then [] else ParseText(codec, file.value)
  }

  function Render(codec: Codec, rows: seq<Row>): string {
    if rows == [] then "" else codec.dumps(rows[0]) + "\n" + Render(codec, rows[1..])
  }

  lemma {:induction false} RenderSnoc(codec: Codec, rows: seq<Row>, row: Row)
    ensures Render(codec, rows + [row]) == Render(codec, rows) + codec.dumps(row) + "\n"
  {
    if rows == [] {
      assert [] + [row] == [row] && [row][1..] == [];
      assert Render(codec, [row]) == codec.dumps(row) + "\n" + "";
    } else {
      RenderSnoc(codec, rows[1..], row);
      assert (rows + [row])[1..] == rows[1..] + [row];
    }
  }

  lemma PrintedLine(codec: Codec, row: Row)
    requires Lawful(codec)
    ensures LineRows(codec)(codec.dumps(row)) == [row]
  {
    StripFixed(codec.dumps(row));
  }

  /** Printing rows and reading the file back is the identity. */
  lemma {:induction false} RoundTrip(codec: Codec, rows: seq<Row>)
    requires Lawful(codec)
    ensures ParseText(codec, Render(codec, rows)) == rows
  {
    if rows == [] {
      assert SplitBy(IsNewline, "") == [""];
      assert [""][..0] == [];
      assert Strip("") == "";
    } else {
      var line, rest := codec.dumps(rows[0]), Render(codec, rows[1..]);
      assert Render(codec, rows) == line + ['\n'] + rest;
      SplitFirst(IsNewline, line, '\n', rest);
      FlatMapCons(LineRows(codec), line, SplitBy(IsNewline, rest));
      PrintedLine(codec, rows[0]);
      RoundTrip(codec, rows[1..]);
    }
  }

  // ----- the two operations on rows -----

  /** A step of a scenario. `OtherAction` stands for the actions that leave the notes file alone;
      a `plan` step that captures notes may also write to it, and runs with such steps are not
      covered by what is proved about runs here. */
  datatype Step =
    | Store(text: string, namespace: string, tags: seq<string>, now: string)
    | Wipe(namespace: string)
    | OtherAction

  function StoredRow(step: Step, repo: string): Row
    requires step.Store?
  {
    Row(Strip(step.namespace), Note(Strip(step.text), repo, Filter(IsNonEmpty, Map(Strip, step.tags)), step.now))
  }

  /** A store without text is refused before the file is touched. */
  predicate Stores(step: Step) {
    step.Store? && Strip(step.text) != ""
  }

  function Surviving(namespace: string): Row -> bool {
    (row: Row) => Strip(namespace) != "" && Strip(row.namespace) != Strip(namespace)
  }

  function Matching(namespace: string): Row -> bool {
    (row: Row) => !Surviving(namespace)(row)
  }

  function Apply(rows: seq<Row>, step: Step, repo: string): seq<Row> {
    if Stores(step) then rows + [StoredRow(step, repo)]
    else if step.Wipe? then Filter(Surviving(step.namespace), rows)
    else rows
  }

  /** The file after one step. */
  function StepFile(codec: Codec, file: Option<string>, step: Step, repo: string): Option<string> {
    if Stores(step) || (step.Wipe? && file.Some?) then Some(Render(codec, Apply(View(codec, file), step, repo)))
    else file
  }

  function RemovedBy(rows: seq<Row>, step: Step): nat {
    if step.Wipe? then Count(Matching(step.namespace), rows) else 0
  }

  // ----- the file as the script handles it -----

  datatype StepResult = Refused | Stored(rowsAfter: nat) | Removed(count: nat) | NoEffect

  lemma NothingMatches(namespace: string)
    ensures Count(Matching(namespace), []) == 0
  {
  }

  /** The rows that survive a wipe, and the number of the others. */
  method SplitRows(rows: seq<Row>, namespace: string) returns (keepRows: seq<Row>, removed: nat)
    ensures keepRows == Filter(Surviving(namespace), rows) && removed == Count(Matching(namespace), rows)
  {
    hide Strip;
    keepRows, removed := [], 0;
    var normalized := Strip(namespace);
    for i := 0 to |rows|
      invariant keepRows == Filter(Surviving(namespace), rows[..i])
      invariant removed == Count(Matching(namespace), rows[..i])
    {
      assert rows[..i + 1][..i] == rows[..i];
      var rowNamespace := Strip(rows[i].namespace);
      if normalized != "" && rowNamespace == normalized {
        removed := removed + 1;
        continue;
      }
      if normalized == "" {
        removed := removed + 1;
        continue;
      }
      keepRows := keepRows + [rows[i]];
    }
    assert rows[..|rows|] == rows;
  }

  class NotesStore {
    const codec: Codec
    var content: Option<string>

    constructor (codec: Codec, content: Option<string>)
      ensures this.codec == codec && this.content == content
    {
      this.codec, this.content := codec, content;
    }

    method ReadRows() returns (rows: seq<Row>)
      ensures rows == View(codec, content)
    {
      rows := [];
      if content.None? {
        return;
      }
      var lines := SplitBy(IsNewline, content.value);
      for i := 0 to |lines|
        invariant rows == FlatMap(LineRows(codec), lines[..i])
      {
        assert lines[..i + 1][..i] == lines[..i];
        var raw := Strip(lines[i]);
        if raw == "" {
          continue;
        }
        var payload := codec.loads(raw);
        if payload.Some? {
          rows := rows + [payload.value];
        }
      }
      assert lines[..|lines|] == lines;
    }

    method WriteRows(rows: seq<Row>)
      modifies this
      ensures content == Some(Render(codec, rows))
    {
      var text := "";
      for i := 0 to |rows|
        invariant text == Render(codec, rows[..i])
      {
        RenderSnoc(codec, rows[..i], rows[i]);
        PrefixStep(rows, i);
        text := text + codec.dumps(rows[i]) + "\n";
      }
      assert rows[..|rows|] == rows;
      content := Some(text);
    }

    method AppendNote(row: Row) returns (count: nat)
      modifies this
      ensures content == Some(Render(codec, old(View(codec, content)) + [row]))
      ensures count == |old(View(codec, content))| + 1
    {
      var rows := ReadRows();
      rows := rows + [row];
      WriteRows(rows);
      count := |rows|;
    }

    method WipeNotes(namespace: string) returns (removed: nat)
      modifies this
      ensures content == StepFile(codec, old(content), Wipe(namespace), "")
      ensures removed == RemovedBy(old(View(codec, content)), Wipe(namespace))
    {
      hide Filter, Count, ParseText, Render, Strip;
      removed := 0;
      if content.None? {
        NothingMatches(namespace);
        return;
      }
      var rows := ReadRows();
      var keepRows;
      keepRows, removed := SplitRows(rows, namespace);
      WriteRows(keepRows);
    }

    method RunStep(step: Step, repo: string) returns (result: StepResult)
      modifies this
      ensures content == StepFile(codec, old(content), step, repo)
      ensures result ==
              match step
              case Store(_, _, _, _) =>
                if Stores(step) then Stored(|old(View(codec, content))| + 1) else Refused
              case Wipe(_) => Removed(RemovedBy(old(View(codec, content)), step))
              case OtherAction => NoEffect
    {
      match step {
        case Store(text, _, _, _) =>
          if Strip(text) == "" {
            return Refused;
          }
          var count := AppendNote(StoredRow(step, repo));
          return Stored(count);
        case Wipe(namespace) =>
          var removed := WipeNotes(namespace);
          return Removed(removed);
        case OtherAction =>
          return NoEffect;
      }
    }

    /** A whole scenario run; `stored` and `removed` total what the steps reported. */
    method RunSteps(steps: seq<Step>, repo: string) returns (stored: nat, removed: nat)
      requires Lawful(codec)
      modifies this
      ensures content == RunFile(codec, old(content), steps, repo)
      ensures View(codec, content) == RunRows(old(View(codec, content)), steps, repo)
      ensures |View(codec, content)| + removed == |old(View(codec, content))| + stored
    {
      stored, removed := 0, 0;
      for i := 0 to |steps|
        invariant content == RunFile(codec, old(content), steps[..i], repo)
        invariant |View(codec, content)| + removed == |old(View(codec, content))| + stored
      {
        PrefixStep(steps, i);
        assert (steps[..i] + [steps[i]])[..i] == steps[..i];
        ghost var before := content;
        var result := RunStep(steps[i], repo);
        StepRefines(codec, before, steps[i], repo);
        StepConserves(View(codec, before), steps[i], repo);
        match result {
          case Stored(_) => stored := stored + 1;
          case Removed(count) => removed := removed + count;
          case Refused =>
          case NoEffect =>
        }
      }
      assert steps[..|steps|] == steps;
      RunRefines(codec, old(content), steps, repo);
    }
  }

  // ----- runs -----

  function RunFile(codec: Codec, file: Option<string>, steps: seq<Step>, repo: string): Option<string> {
    if steps == [] then file
    else StepFile(codec, RunFile(codec, file, steps[..|steps| - 1], repo), steps[|steps| - 1], repo)
  }

  function RunRows(rows: seq<Row>, steps: seq<Step>, repo: string): seq<Row> {
    if steps == [] then rows
    else Apply(RunRows(rows, steps[..|steps| - 1], repo), steps[|steps| - 1], repo)
  }

  /** One step on the file is one step on the rows. */
  lemma StepRefines(codec: Codec, file: Option<string>, step: Step, repo: string)
    requires Lawful(codec)
    ensures View(codec, StepFile(codec, file, step, repo)) == Apply(View(codec, file), step, repo)
  {
    RoundTrip(codec, Apply(View(codec, file), step, repo));
  }

  /** Every run of the file refines the same run on a sequence of records. */
  lemma {:induction false} RunRefines(codec: Codec, file: Option<string>, steps: seq<Step>, repo: string)
    requires Lawful(codec)
    ensures View(codec, RunFile(codec, file, steps, repo)) == RunRows(View(codec, file), steps, repo)
  {
    if steps != [] {
      var init, last := steps[..|steps| - 1], steps[|steps| - 1];
      RunRefines(codec, file, init, repo);
      StepRefines(codec, RunFile(codec, file, init, repo), last, repo);
    }
  }

  lemma {:induction false} SurvivorsCounted(namespace: string, rows: seq<Row>)
    ensures |Filter(Surviving(namespace), rows)| + Count(Matching(namespace), rows) == |rows|
  {
    if rows != [] {
      SurvivorsCounted(namespace, rows[..|rows| - 1]);
    }
  }

  lemma StepConserves(rows: seq<Row>, step: Step, repo: string)
    ensures |Apply(rows, step, repo)| + RemovedBy(rows, step) == |rows| + (if Stores(step) then 1 else 0)
  {
    if step.Wipe? {
      SurvivorsCounted(step.namespace, rows);
    }
  }

  /** The file holds exactly the rendering of its rows: no malformed or blank line is left. */
  ghost predicate Pristine(codec: Codec, file: Option<string>) {
    file.Some? ==> file.value == Render(codec, View(codec, file))
  }

  predicate Rewrites(file: Option<string>, step: Step) {
    Stores(step) || (step.Wipe? && file.Some?)
  }

  /** Any step that writes leaves a pristine file, and no step spoils one. */
  lemma RewriteIsPristine(codec: Codec, file: Option<string>, step: Step, repo: string)
    requires Lawful(codec)
    requires Rewrites(file, step) || Pristine(codec, file)
    ensures Pristine(codec, StepFile(codec, file, step, repo))
  {
    RoundTrip(codec, Apply(View(codec, file), step, repo));
  }

  /** After a run on an existing file that writes at least once, the file is pristine. */
  lemma {:induction false} RunIsPristine(codec: Codec, file: Option<string>, steps: seq<Step>, repo: string)
    requires Lawful(codec)
    requires Pristine(codec, file) || exists i :: 0 <= i < |steps| && Rewrites(file, steps[i])
    ensures Pristine(codec, RunFile(codec, file, steps, repo))
  {
    hide StepFile, Pristine, Lawful, Stores;
    if steps != [] {
      var init, last := steps[..|steps| - 1], steps[|steps| - 1];
      var before := RunFile(codec, file, init, repo);
      RunKeepsFile(codec, file, init, repo);
      if Rewrites(file, last) {
        RewriteIsPristine(codec, before, last, repo);
      } else {
        if !Pristine(codec, file) {
          var i :| 0 <= i < |steps| && Rewrites(file, steps[i]);
          assert init[i] == steps[i];
        }
        RunIsPristine(codec, file, init, repo);
        RewriteIsPristine(codec, before, last, repo);
      }
    }
  }

  /** A file that exists keeps existing. */
  lemma {:induction false} RunKeepsFile(codec: Codec, file: Option<string>, steps: seq<Step>, repo: string)
    ensures file.Some? ==> RunFile(codec, file, steps, repo).Some?
  {
    if steps != [] {
      RunKeepsFile(codec, file, steps[..|steps| - 1], repo);
    }
  }

  // ----- what a wipe keeps -----

  function InNamespace(namespace: string): Row -> bool {
    (row: Row) => Strip(row.namespace) == namespace
  }

  /** Wiping a namespace removes all of its rows and keeps every other namespace's rows, in order. */
  lemma {:induction false} WipeKeepsOthers(rows: seq<Row>, wiped: string, other: string, repo: string)
    requires Strip(wiped) != ""
    ensures Filter(InNamespace(other), Apply(rows, Wipe(wiped), repo))
         == if other == Strip(wiped) then [] else Filter(InNamespace(other), rows)
  {
    if rows != [] {
      var init, last := rows[..|rows| - 1], rows[|rows| - 1];
      WipeKeepsOthers(init, wiped, other, repo);
      var kept := Filter(Surviving(wiped), init);
      if Surviving(wiped)(last) {
        assert (kept + [last])[..|kept|] == kept;
      } else {
        assert kept + [] == kept;
      }
    }
  }

  /** Wiping without a namespace empties the store. */
  lemma {:induction false} WipeAll(rows: seq<Row>, namespace: string, repo: string)
    requires Strip(namespace) == ""
    ensures Apply(rows, Wipe(namespace), repo) == []
  {
    if rows != [] {
      WipeAll(rows[..|rows| - 1], namespace, repo);
    }
  }

  /** Storing a note and wiping its namespace is the same as the wipe alone. */
  lemma StoreThenWipe(rows: seq<Row>, step: Step, repo: string)
    requires Stores(step)
    ensures Apply(Apply(rows, step, repo), Wipe(step.namespace), repo) == Apply(rows, Wipe(step.namespace), repo)
  {
    var row := StoredRow(step, repo);
    StripIdempotent(step.namespace);
    assert (rows + [row])[..|rows|] == rows;
    assert Filter(Surviving(step.namespace), rows) + [] == Filter(Surviving(step.namespace), rows);
  }

  /** Wipes commute. */
  lemma WipesCommute(rows: seq<Row>, a: string, b: string, repo: string)
    ensures Apply(Apply(rows, Wipe(a), repo), Wipe(b), repo) == Apply(Apply(rows, Wipe(b), repo), Wipe(a), repo)
  {
    FiltersCommute(Surviving(a), Surviving(b), rows);
    hide Filter, Surviving;
  }

  // ----- what one line, one store and one wipe mean -----

  /** A file is read line by line: a line that is blank once trimmed, or that the JSON library does
      not read as an object, is passed over, any other adds the object read from it. */
  lemma LinesRead(codec: Codec, line: string, rest: string)
    requires '\n' !in line
    ensures var own := if Strip(line) == "" then None else codec.loads(Strip(line));
            var rows := if own.Some? then [own.value] else [];
            View(codec, Some(line + "\n" + rest)) == rows + View(codec, Some(rest)) && View(codec, Some(line)) == rows
    ensures View(codec, None) == []
  {
    SplitFirst(IsNewline, line, '\n', rest);
    assert line + ['\n'] + rest == line + "\n" + rest;
    SplitWhole(IsNewline, line);
    FlatMapCons(LineRows(codec), line, SplitBy(IsNewline, rest));
    FlatMapCons(LineRows(codec), line, []);
    hide Strip, SplitBy;
    assert [line] + [] == [line] && FlatMap(LineRows(codec), []) == [];
    assert LineRows(codec)(line) + [] == LineRows(codec)(line);
  }

  function TagsOf(row: Row): seq<string> {
    if row.body.Note? then row.body.tags else []
  }

  /** A store with text appends one row, which holds the trimmed text and namespace, the repo, the
      time, and the trimmed tags without blanks, in order; a store without text changes nothing. */
  lemma StoreAppends(rows: seq<Row>, text: string, namespace: string, tags: seq<string>, now: string, repo: string)
    ensures Strip(text) == "" ==> Apply(rows, Store(text, namespace, tags, now), repo) == rows
    ensures Strip(text) != "" ==>
              var after := Apply(rows, Store(text, namespace, tags, now), repo);
              && |after| == |rows| + 1 && after[..|rows|] == rows
              && after[|rows|].namespace == Strip(namespace)
              && after[|rows|].body == Note(Strip(text), repo, TagsOf(after[|rows|]), now)
  {
    hide Strip;
  }

  lemma TagsKept(text: string, namespace: string, tags: seq<string>, tag: string, now: string, repo: string)
    ensures TagsOf(StoredRow(Store(text, namespace, [], now), repo)) == []
    ensures TagsOf(StoredRow(Store(text, namespace, tags + [tag], now), repo))
         == TagsOf(StoredRow(Store(text, namespace, tags, now), repo)) + (if Strip(tag) == "" then [] else [Strip(tag)])
  {
    assert (tags + [tag])[..|tags|] == tags;
    assert Map(Strip, tags + [tag]) == Map(Strip, tags) + [Strip(tag)];
    hide Strip;
    FilterSnoc(IsNonEmpty, Map(Strip, tags), Strip(tag));
  }

  /** A wipe keeps a row exactly when a namespace is named and the row's own, trimmed, is another,
      and it counts the rows it does not keep. */
  lemma WipeRow(rows: seq<Row>, row: Row, namespace: string, repo: string)
    ensures Apply([], Wipe(namespace), repo) == [] && RemovedBy([], Wipe(namespace)) == 0
    ensures var kept := Strip(namespace) != "" && Strip(row.namespace) != Strip(namespace);
            && Apply(rows + [row], Wipe(namespace), repo)
               == Apply(rows, Wipe(namespace), repo) + (if kept then [row] else [])
            && RemovedBy(rows + [row], Wipe(namespace)) == RemovedBy(rows, Wipe(namespace)) + (if kept then 0 else 1)
  {
    FilterSnoc(Surviving(namespace), rows, row);
    assert (rows + [row])[..|rows|] == rows;
    hide Strip;
  }

  /** Only a store with text creates the file, a wipe leaves a missing one missing, and a refused
      store or any other action leaves the file as it is. */
  lemma FileAfterStep(codec: Codec, file: Option<string>, step: Step, repo: string)
    requires Lawful(codec)
    ensures step == OtherAction || (step.Store? && Strip(step.text) == "") || (step.Wipe? && file.None?) ==>
              StepFile(codec, file, step, repo) == file
    ensures (step.Store? && Strip(step.text) != "") || (step.Wipe? && file.Some?) ==>
              && StepFile(codec, file, step, repo).Some?
              && View(codec, StepFile(codec, file, step, repo)) == Apply(View(codec, file), step, repo)
  {
    StepRefines(codec, file, step, repo);
    hide View, Apply, Strip, Lawful;
  }
}
