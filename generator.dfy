/**
 * The batch loop of sdg: for every batch it draws batch_size labels and
 * categories, asks the text generator for one sample per index of the
 * batch, parses each response into text and reasoning, collects the
 * entries in batch_data and then writes them to the CSV file, with a
 * header for the first batch and appended without one afterwards.
 *
 * random.choices and the text-generation pipeline are not part of this
 * model: their results are inputs (an Oracle), constrained to what they can
 * return. The CSV file is an object holding its rows. The batch loop is
 * stated for any response parser (RunBatches) and Sdg runs it with
 * parse_string (ResponseParser.ParseString).
 */
module Generator {
  import opened Results
  import opened Batching
  import opened ResponseParser

  /** The arguments of sdg that the batch loop reads (output_dir only names the file). */
  datatype Config = Config(
    sampleSize: int,
    labels: seq<string>,
    labelDescriptions: string,
    categories: seq<string>,                     // list(categories_types.keys())
    categoryTypes: map<string, seq<string>>,
    useCase: string,
    promptExamples: string,
    model: string,
    maxNewTokens: int,
    batchSize: int,
    saveReasoning: bool)

  /**
   * What random.choices and the generator return, in the order sdg asks:
   * labelDraws[k] and categoryDraws[k] are the two draws of batch k,
   * typeDraws[i] the type drawn for sample i, responses[i] the generated
   * content for sample i.
   */
  datatype Oracle = Oracle(
    labelDraws: seq<seq<string>>,
    categoryDraws: seq<seq<string>>,
    typeDraws: seq<string>,
    responses: seq<string>)

  /**
   * One call of the generator: the model and token budget, the values the
   * system message is built from, and those the user prompt is built from.
   */
  datatype Request = Request(
    model: string,
    maxNewTokens: int,
    useCase: string,
    labels: seq<string>,
    categories: seq<string>,
    labelDescriptions: string,
    promptExamples: string,
    classLabel: string,
    category: string,
    typeChoice: seq<string>)

  /** One dict appended to batch_data; reasoning is None when the key is absent. */
  datatype Entry = Entry(text: string, classLabel: string, model: string, reasoning: Option<string>)

  /** A CSV line as its cells. */
  type Row = seq<string>

  /** pd.DataFrame(batch_data): its column names and its data rows. */
  datatype DataFrame = DataFrame(columns: Row, rows: seq<Row>)

  /** The output file: whether it exists yet, and its lines. */
  class CsvFile {
    var created: bool
    var rows: seq<Row>

    constructor ()
      ensures !created && rows == []
    {
      created := false;
      rows := [];
    }

    /** to_csv(path, mode="w", index=False): replaces the file by the header and the rows. */
    method Write(frame: DataFrame)
      modifies this
      ensures created && rows == [frame.columns] + frame.rows
    {
      created := true;
      rows := [frame.columns] + frame.rows;
    }

    /** to_csv(path, mode="a", header=False, index=False): adds the rows at the end. */
    method Append(frame: DataFrame)
      modifies this
      ensures created && rows == old(rows) + frame.rows
    {
      created := true;
      rows := rows + frame.rows;
    }
  }

  predicate ValidConfig(c: Config) {
    c.batchSize > 0 &&
    (forall name :: name in c.categories ==> name in c.categoryTypes) &&
    (forall name :: name in c.categoryTypes ==> name in c.categories)
  }

  /** Number of samples the loop visits (range(start, end) is empty for a negative sample_size). */
  function Samples(c: Config): nat {
    if c.sampleSize > 0 then c.sampleSize else 0
  }

  /** Number of iterations of `for batch in range(num_batches)`. */
  function Batches(c: Config): nat
    requires c.batchSize > 0
  {
    BatchCount(c.sampleSize, c.batchSize)
  }

  /** One label and one category draw of batch_size elements per batch, taken from the pools. */
  predicate BatchDraws(c: Config, o: Oracle)
    requires c.batchSize > 0
  {
    |o.labelDraws| >= Batches(c) && |o.categoryDraws| >= Batches(c) &&
    (forall k :: 0 <= k < |o.labelDraws| ==> |o.labelDraws[k]| == c.batchSize) &&
    (forall k :: 0 <= k < |o.categoryDraws| ==> |o.categoryDraws[k]| == c.batchSize) &&
    (forall k, j :: 0 <= k < |o.labelDraws| && 0 <= j < |o.labelDraws[k]| ==> o.labelDraws[k][j] in c.labels) &&
    (forall k, j :: 0 <= k < |o.categoryDraws| && 0 <= j < |o.categoryDraws[k]| ==> o.categoryDraws[k][j] in c.categories) &&
    |o.typeDraws| >= Samples(c) && |o.responses| >= Samples(c)
  }

  /** The label drawn for sample i: batch_random_labels[i - start] of its batch. */
  function LabelOf(c: Config, o: Oracle, i: int): (classLabel: string)
    requires ValidConfig(c) && BatchDraws(c, o) && 0 <= i < Samples(c)
    ensures classLabel in c.labels
  {
    LocateInRange(c.sampleSize, c.batchSize, i);
    var (batch, offset) := Locate(i, c.batchSize);
    o.labelDraws[batch][offset]
  }

  /** The category drawn for sample i: batch_random_categories[i - start] of its batch. */
  function CategoryOf(c: Config, o: Oracle, i: int): (category: string)
    requires ValidConfig(c) && BatchDraws(c, o) && 0 <= i < Samples(c)
    ensures category in c.categories && category in c.categoryTypes
  {
    LocateInRange(c.sampleSize, c.batchSize, i);
    var (batch, offset) := Locate(i, c.batchSize);
    o.categoryDraws[batch][offset]
  }

  /** Samples start .. end - 1 take their label and category from the draws of batch `batch`, at offset k - start. */
  predicate DrawnInBatch(c: Config, o: Oracle, batch: nat, start: nat, end: nat)
    requires ValidConfig(c) && BatchDraws(c, o)
  {
    batch < |o.labelDraws| && batch < |o.categoryDraws| && start <= end <= Samples(c) && end - start <= c.batchSize &&
    forall k :: start <= k < end ==>
      LabelOf(c, o, k) == o.labelDraws[batch][k - start] && CategoryOf(c, o, k) == o.categoryDraws[batch][k - start]
  }

  /** Every batch the loop runs draws the labels and categories of exactly its own samples. */
  lemma BatchDrawn(c: Config, o: Oracle, batch: int)
    requires ValidConfig(c) && BatchDraws(c, o) && 0 <= batch < NumBatches(c.sampleSize, c.batchSize)
    ensures 0 <= BatchStart(batch, c.batchSize) < BatchEnd(batch, c.batchSize, c.sampleSize) <= Samples(c)
    ensures DrawnInBatch(c, o, batch, BatchStart(batch, c.batchSize), BatchEnd(batch, c.batchSize, c.sampleSize))
  {
    BatchBounds(c.sampleSize, c.batchSize, batch);
    BatchCountIsNumBatches(c.sampleSize, c.batchSize);
    forall k | BatchStart(batch, c.batchSize) <= k < BatchEnd(batch, c.batchSize, c.sampleSize)
      ensures LabelOf(c, o, k) == o.labelDraws[batch][k - BatchStart(batch, c.batchSize)]
      ensures CategoryOf(c, o, k) == o.categoryDraws[batch][k - BatchStart(batch, c.batchSize)]
    {
      SampleInBatch(c.sampleSize, c.batchSize, batch, k);
      LocateIsDivMod(k, c.batchSize);
    }
  }

  /** Every draw is one random.choices can return: the type of sample i comes from its own category's list. */
  predicate ValidDraws(c: Config, o: Oracle)
    requires ValidConfig(c)
  {
    BatchDraws(c, o) &&
    forall i :: 0 <= i < Samples(c) ==> o.typeDraws[i] in c.categoryTypes[CategoryOf(c, o, i)]
  }

  /** The generator call for sample i: the prompt names the drawn label, category and one-element type list. */
  function RequestOf(c: Config, o: Oracle, i: int): (r: Request)
    requires ValidConfig(c) && ValidDraws(c, o) && 0 <= i < Samples(c)
    ensures r.classLabel in c.labels && r.category in c.categories
    ensures |r.typeChoice| == 1 && r.typeChoice[0] in c.categoryTypes[r.category]
  {
    Request(c.model, c.maxNewTokens, c.useCase, c.labels, c.categories, c.labelDescriptions,
            c.promptExamples, LabelOf(c, o, i), CategoryOf(c, o, i), [o.typeDraws[i]])
  }

  /** The generator calls for samples 0 .. n - 1, in order. */
  function Requests(c: Config, o: Oracle, n: nat): (r: seq<Request>)
    requires ValidConfig(c) && ValidDraws(c, o) && n <= Samples(c)
    ensures |r| == n
  {
    if n == 0 then [] else Requests(c, o, n - 1) + [RequestOf(c, o, n - 1)]
  }

  /** One more sample adds its call to the trace. */
  lemma RequestsStep(c: Config, o: Oracle, i: nat, requests: seq<Request>, request: Request)
    requires ValidConfig(c) && ValidDraws(c, o) && i < Samples(c)
    requires requests == Requests(c, o, i) && request == RequestOf(c, o, i)
    ensures requests + [request] == Requests(c, o, i + 1)
  {
  }

  /** Call i of the first n is the one for sample i. */
  lemma {:induction false} RequestsAt(c: Config, o: Oracle, n: nat, i: nat)
    requires ValidConfig(c) && ValidDraws(c, o) && i < n <= Samples(c)
    ensures Requests(c, o, n)[i] == RequestOf(c, o, i)
  {
    if i < n - 1 {
      RequestsAt(c, o, n - 1, i);
    }
  }

  /**
   * What parsing one response gives: the text and the reasoning, or the
   * message of the ValueError raised. verdicts[i] is the verdict on
   * responses[i]; the parser is pure, so the batch loop may read it as data.
   */
  type Verdict = Result<(string, string), string>

  /** The first of samples 0 .. n - 1 whose response is rejected, if any. */
  function FirstUnparsed(verdicts: seq<Verdict>, n: nat): (r: Option<nat>)
    requires n <= |verdicts|
    ensures r.None? ==> forall i :: 0 <= i < n ==> verdicts[i].Success?
    ensures r.Some? ==> r.value < n && verdicts[r.value].Failure? &&
                        forall i :: 0 <= i < r.value ==> verdicts[i].Success?
  {
    if n == 0 then None
    else
      var r := FirstUnparsed(verdicts, n - 1);
      if r.Some? then r
      else if verdicts[n - 1].Success? then None
      else Some(n - 1)
  }

  /** A failure at i, after i responses that parse, stays the first failure however many responses follow. */
  lemma {:induction false} FirstUnparsedAt(verdicts: seq<Verdict>, i: nat, n: nat)
    requires i < n <= |verdicts|
    requires FirstUnparsed(verdicts, i) == None && verdicts[i].Failure?
    ensures FirstUnparsed(verdicts, n) == Some(i)
  {
    if n > i + 1 {
      FirstUnparsedAt(verdicts, i, n - 1);
    }
  }

  /** The first m responses all parse exactly when the first failure among n >= m, if any, is at m or later. */
  lemma {:induction false} FirstUnparsedPrefix(verdicts: seq<Verdict>, m: nat, n: nat)
    requires m <= n <= |verdicts|
    ensures FirstUnparsed(verdicts, m) == None <==>
            FirstUnparsed(verdicts, n) == None || FirstUnparsed(verdicts, n).value >= m
  {
    if m < n {
      FirstUnparsedPrefix(verdicts, m, n - 1);
    }
  }

  /** How many generator calls sdg makes: up to and including the first response that does not parse. */
  function Processed(c: Config, o: Oracle, verdicts: seq<Verdict>): (r: nat)
    requires ValidConfig(c) && ValidDraws(c, o) && |verdicts| >= Samples(c)
    ensures r <= Samples(c)
  {
    match FirstUnparsed(verdicts, Samples(c))
    case None => Samples(c)
    case Some(i) => i + 1
  }

  /** How many data rows reach the file: all samples, or the batches before the one that failed. */
  function Saved(c: Config, o: Oracle, verdicts: seq<Verdict>): (r: nat)
    requires ValidConfig(c) && ValidDraws(c, o) && |verdicts| >= Samples(c)
    ensures r <= Samples(c) && FirstUnparsed(verdicts, r) == None
  {
    match FirstUnparsed(verdicts, Samples(c))
    case None => Samples(c)
    case Some(i) =>
      var start := i - Locate(i, c.batchSize).1;
      FirstUnparsedPrefix(verdicts, start, Samples(c));
      start
  }

  /** The entry sdg builds for sample i from its parsed response. */
  function EntryOf(c: Config, o: Oracle, verdicts: seq<Verdict>, i: int): Entry
    requires ValidConfig(c) && ValidDraws(c, o) && |verdicts| >= Samples(c) && 0 <= i < Samples(c) && verdicts[i].Success?
  {
    var (text, reasoning) := verdicts[i].value;
    Entry(text, LabelOf(c, o, i), c.model, if c.saveReasoning then Some(reasoning) else None)
  }

  /** The DataFrame columns: the keys of an entry, in insertion order. */
  function Header(saveReasoning: bool): Row {
    ["text", "label", "model"] + (if saveReasoning then ["reasoning"] else [])
  }

  /** The CSV cells of one entry. */
  function RowOf(e: Entry): Row {
    [e.text, e.classLabel, e.model] + (if e.reasoning.Some? then [e.reasoning.value] else [])
  }

  /** The data rows of the entries, one per entry and in order. */
  function Rows(entries: seq<Entry>): (r: seq<Row>)
    ensures |r| == |entries|
  {
    if entries == [] then [] else Rows(entries[..|entries| - 1]) + [RowOf(entries[|entries| - 1])]
  }

  /** pd.DataFrame(batch_data): the columns come from the keys of the entries. */
  function ToDataFrame(entries: seq<Entry>): DataFrame {
    DataFrame(if entries == [] then [] else Header(entries[0].reasoning.Some?), Rows(entries))
  }

  /** The data rows of samples 0 .. n - 1. */
  function DataRows(c: Config, o: Oracle, verdicts: seq<Verdict>, n: nat): (r: seq<Row>)
    requires ValidConfig(c) && ValidDraws(c, o) && |verdicts| >= Samples(c) && n <= Samples(c)
    requires FirstUnparsed(verdicts, n) == None
    ensures |r| == n
  {
    if n == 0 then [] else DataRows(c, o, verdicts, n - 1) + [RowOf(EntryOf(c, o, verdicts, n - 1))]
  }

  /** The data rows of samples start .. n - 1. */
  function BatchRows(c: Config, o: Oracle, verdicts: seq<Verdict>, start: nat, n: nat): (r: seq<Row>)
    requires ValidConfig(c) && ValidDraws(c, o) && |verdicts| >= Samples(c) && start <= n <= Samples(c)
    requires FirstUnparsed(verdicts, n) == None
    ensures |r| == n - start
    decreases n - start
  {
    if n == start then [] else BatchRows(c, o, verdicts, start, n - 1) + [RowOf(EntryOf(c, o, verdicts, n - 1))]
  }

  /**
   * One pass of the inner loop that parses: appending sample i's entry to
   * the entries of samples start .. i - 1 gives the entries up to i, whose
   * first one still has the reasoning column exactly when it is saved.
   */
  lemma EntryStep(c: Config, o: Oracle, verdicts: seq<Verdict>, start: nat, i: nat, batchData: seq<Entry>, e: Entry)
    requires ValidConfig(c) && ValidDraws(c, o) && |verdicts| >= Samples(c) && start <= i < Samples(c)
    requires FirstUnparsed(verdicts, i) == None && verdicts[i].Success?
    requires Rows(batchData) == BatchRows(c, o, verdicts, start, i) && e == EntryOf(c, o, verdicts, i)
    requires batchData != [] ==> batchData[0].reasoning.Some? == c.saveReasoning
    requires e.reasoning.Some? == c.saveReasoning
    ensures FirstUnparsed(verdicts, i + 1) == None
    ensures Rows(batchData + [e]) == BatchRows(c, o, verdicts, start, i + 1)
    ensures (batchData + [e])[0].reasoning.Some? == c.saveReasoning
  {
    assert (batchData + [e])[..|batchData|] == batchData;
  }

  /** The rows of samples 0 .. n - 1 are those before start followed by those from start on. */
  lemma {:induction false} DataRowsSplit(c: Config, o: Oracle, verdicts: seq<Verdict>, start: nat, n: nat)
    requires ValidConfig(c) && ValidDraws(c, o) && |verdicts| >= Samples(c) && start <= n <= Samples(c)
    requires FirstUnparsed(verdicts, n) == None
    ensures FirstUnparsed(verdicts, start) == None
    ensures DataRows(c, o, verdicts, n) == DataRows(c, o, verdicts, start) + BatchRows(c, o, verdicts, start, n)
    decreases n - start
  {
    FirstUnparsedPrefix(verdicts, start, n);
    if n > start {
      DataRowsSplit(c, o, verdicts, start, n - 1);
      AppendOne(DataRows(c, o, verdicts, start), BatchRows(c, o, verdicts, start, n - 1), RowOf(EntryOf(c, o, verdicts, n - 1)));
    }
  }

  /** The output file once the rows of samples 0 .. n - 1 are written: nothing, or the header and those rows. */
  function FileAfter(c: Config, o: Oracle, verdicts: seq<Verdict>, n: nat): seq<Row>
    requires ValidConfig(c) && ValidDraws(c, o) && |verdicts| >= Samples(c) && n <= Samples(c)
    requires FirstUnparsed(verdicts, n) == None
  {
    if n == 0 then [] else [Header(c.saveReasoning)] + DataRows(c, o, verdicts, n)
  }

  /**
   * Writing a batch: the first one replaces the file by the header and its
   * rows, a later one appends its rows; either way the file then holds the
   * samples up to the end of the batch.
   */
  lemma WriteBatch(c: Config, o: Oracle, verdicts: seq<Verdict>, start: nat, end: nat, batchRows: seq<Row>)
    requires ValidConfig(c) && ValidDraws(c, o) && |verdicts| >= Samples(c) && start < end <= Samples(c)
    requires FirstUnparsed(verdicts, end) == None
    requires batchRows == BatchRows(c, o, verdicts, start, end)
    ensures FirstUnparsed(verdicts, start) == None
    ensures start == 0 ==> FileAfter(c, o, verdicts, end) == [Header(c.saveReasoning)] + batchRows
    ensures start > 0 ==> FileAfter(c, o, verdicts, end) == FileAfter(c, o, verdicts, start) + batchRows
  {
    DataRowsSplit(c, o, verdicts, start, end);
    if start == 0 {
      assert DataRows(c, o, verdicts, start) == [];
    }
  }

  /** Data row i of the first n is the row of sample i's entry. */
  lemma {:induction false} DataRowsAt(c: Config, o: Oracle, verdicts: seq<Verdict>, n: nat, i: nat)
    requires ValidConfig(c) && ValidDraws(c, o) && |verdicts| >= Samples(c) && i < n <= Samples(c)
    requires FirstUnparsed(verdicts, n) == None
    ensures DataRows(c, o, verdicts, n)[i] == RowOf(EntryOf(c, o, verdicts, i))
  {
    if i < n - 1 {
      DataRowsAt(c, o, verdicts, n - 1, i);
    }
  }

  /** Appending one element to the end of a concatenation. */
  lemma AppendOne<T>(prefix: seq<T>, rest: seq<T>, x: T)
    ensures prefix + (rest + [x]) == (prefix + rest) + [x]
  {
  }

  /**
   * What the inner loop has done once samples start .. i - 1 all parsed:
   * the calls for samples 0 .. i - 1 are made, batch_data holds one entry
   * per sample of the batch so far, the first with the reasoning column
   * exactly when it is saved.
   */
  predicate BatchSoFar(c: Config, o: Oracle, verdicts: seq<Verdict>, start: nat, i: nat, batchData: seq<Entry>, requests: seq<Request>)
    requires ValidConfig(c) && ValidDraws(c, o) && |verdicts| >= Samples(c)
  {
    start <= i <= Samples(c) && FirstUnparsed(verdicts, i) == None &&
    requests == Requests(c, o, i) && Rows(batchData) == BatchRows(c, o, verdicts, start, i) &&
    (batchData != [] ==> batchData[0].reasoning.Some? == c.saveReasoning) &&
    (i > start ==> batchData != [])
  }

  /**
   * What the inner loop leaves behind for samples start .. end - 1: when
   * they all parse, every call up to end is made and batch_data holds their
   * entries under the usual header; otherwise the calls up to and including
   * the first failure are made and the outcome is that failure's error.
   */
  predicate BatchResult(c: Config, o: Oracle, verdicts: seq<Verdict>, start: nat, end: nat,
                        batchData: seq<Entry>, requests: seq<Request>, outcome: Result<(), string>)
    requires ValidConfig(c) && ValidDraws(c, o) && |verdicts| >= Samples(c) && start <= end <= Samples(c)
  {
    match FirstUnparsed(verdicts, end)
    case None =>
      outcome == Success(()) && requests == Requests(c, o, end) &&
      Rows(batchData) == BatchRows(c, o, verdicts, start, end) &&
      batchData != [] && ToDataFrame(batchData).columns == Header(c.saveReasoning)
    case Some(i) =>
      start <= i && outcome == Failure(verdicts[i].error) && requests == Requests(c, o, i + 1)
  }

  /** Before the inner loop: nothing in batch_data yet, the calls up to start made. */
  lemma BatchBegun(c: Config, o: Oracle, verdicts: seq<Verdict>, start: nat, requests: seq<Request>)
    requires ValidConfig(c) && ValidDraws(c, o) && |verdicts| >= Samples(c) && start <= Samples(c)
    requires FirstUnparsed(verdicts, start) == None && requests == Requests(c, o, start)
    ensures BatchSoFar(c, o, verdicts, start, start, [], requests)
  {
  }

  /** The inner loop ran to the end of a non-empty batch. */
  lemma BatchCompleted(c: Config, o: Oracle, verdicts: seq<Verdict>, start: nat, end: nat, batchData: seq<Entry>, requests: seq<Request>)
    requires ValidConfig(c) && ValidDraws(c, o) && |verdicts| >= Samples(c) && start < end
    requires BatchSoFar(c, o, verdicts, start, end, batchData, requests)
    ensures BatchResult(c, o, verdicts, start, end, batchData, requests, Success(()))
  {
  }

  /** The inner loop stopped at sample i, the first in the batch whose response does not parse. */
  lemma BatchStopped(c: Config, o: Oracle, verdicts: seq<Verdict>, start: nat, i: nat, end: nat, requests: seq<Request>)
    requires ValidConfig(c) && ValidDraws(c, o) && |verdicts| >= Samples(c) && start <= i < end <= Samples(c)
    requires FirstUnparsed(verdicts, i) == None && verdicts[i].Failure?
    requires requests == Requests(c, o, i + 1)
    ensures forall batchData :: BatchResult(c, o, verdicts, start, end, batchData, requests, Failure(verdicts[i].error))
  {
    FirstUnparsedAt(verdicts, i, end);
  }

  /**
   * One pass of `for i in range(start, end)`: draw the type of sample i's
   * category, build the generator call from the batch's draws at i - start,
   * parse the response, and append the entry to batch_data, or stop with
   * the parser's error. The call joins the trace of calls made so far.
   */
  method GenerateSample(c: Config, o: Oracle, verdicts: seq<Verdict>, batch: nat, start: nat, end: nat, i: nat,
                        batchRandomLabels: seq<string>, batchRandomCategories: seq<string>,
                        batchData: seq<Entry>, requests: seq<Request>)
    returns (newData: seq<Entry>, newRequests: seq<Request>, error: Option<string>)
    requires ValidConfig(c) && ValidDraws(c, o) && |verdicts| >= Samples(c) && DrawnInBatch(c, o, batch, start, end) && start <= i < end
    requires batchRandomLabels == o.labelDraws[batch] && batchRandomCategories == o.categoryDraws[batch]
    requires BatchSoFar(c, o, verdicts, start, i, batchData, requests)
    ensures i < Samples(c) && (error.None? <==> verdicts[i].Success?)
    ensures error.None? ==> BatchSoFar(c, o, verdicts, start, i + 1, newData, newRequests)
    ensures error.Some? ==> BatchResult(c, o, verdicts, start, end, newData, newRequests, Failure(error.value))
  {
    assert o.typeDraws[i] in c.categoryTypes[batchRandomCategories[i - start]];
    var randomType := [o.typeDraws[i]];
    var request := Request(c.model, c.maxNewTokens, c.useCase, c.labels, c.categories, c.labelDescriptions,
                           c.promptExamples, batchRandomLabels[i - start], batchRandomCategories[i - start], randomType);
    RequestsStep(c, o, i, requests, request);
    newRequests := requests + [request];
    var parsed := verdicts[i];          // parse_string(result) for result = responses[i]
    if parsed.Failure? {
      BatchStopped(c, o, verdicts, start, i, end, newRequests);
      return batchData, newRequests, Some(parsed.error);
    }
    var (text, reasoning) := parsed.value;
    var entry := Entry(text, batchRandomLabels[i - start], c.model, None);
    if c.saveReasoning {
      entry := entry.(reasoning := Some(reasoning));
    }
    EntryStep(c, o, verdicts, start, i, batchData, entry);
    newData := batchData + [entry];
    error := None;
  }

  /**
   * The body of the batch loop after [start, end) is computed: the draws
   * of the batch, then one generator call and one entry per sample,
   * stopping at the first rejected response. On success the entries
   * are the rows of the batch, in order, under the usual header.
   */
  method GenerateBatch(c: Config, o: Oracle, verdicts: seq<Verdict>, batch: nat, start: nat, end: nat, requestsBefore: seq<Request>)
    returns (batchData: seq<Entry>, requests: seq<Request>, outcome: Result<(), string>)
    requires ValidConfig(c) && ValidDraws(c, o) && |verdicts| >= Samples(c) && DrawnInBatch(c, o, batch, start, end) && start < end
    requires FirstUnparsed(verdicts, start) == None
    requires requestsBefore == Requests(c, o, start)
    ensures start <= end <= Samples(c) && BatchResult(c, o, verdicts, start, end, batchData, requests, outcome)
  {
    batchData := [];
    var batchRandomLabels := o.labelDraws[batch];
    var batchRandomCategories := o.categoryDraws[batch];
    requests := requestsBefore;
    BatchBegun(c, o, verdicts, start, requests);
    for i := start to end
      invariant BatchSoFar(c, o, verdicts, start, i, batchData, requests)
    {
      var error;
      batchData, requests, error := GenerateSample(c, o, verdicts, batch, start, end, i, batchRandomLabels, batchRandomCategories, batchData, requests);
      if error.Some? {
        outcome := Failure(error.value);
        return;
      }
    }
    outcome := Success(());
    BatchCompleted(c, o, verdicts, start, end, batchData, requests);
  }

  /**
   * What the batch loop has done before batch `batch`: the batches before
   * it, samples 0 .. saved - 1, all parsed, their generator calls are made,
   * and the file (created, rows) exists exactly when a batch was written
   * and holds the header and their rows.
   */
  predicate RunSoFar(c: Config, o: Oracle, verdicts: seq<Verdict>, batch: nat, requests: seq<Request>,
                     created: bool, rows: seq<Row>)
    requires ValidConfig(c) && ValidDraws(c, o) && |verdicts| >= Samples(c)
  {
    var saved := if batch == 0 then 0 else BatchEnd(batch - 1, c.batchSize, c.sampleSize);
    batch <= Batches(c) && 0 <= saved <= Samples(c) && FirstUnparsed(verdicts, saved) == None &&
    requests == Requests(c, o, saved) && created == (batch > 0) && created == (saved > 0) &&
    rows == FileAfter(c, o, verdicts, saved)
  }

  /** Before the batch loop: no call made, no file. */
  lemma RunBegun(c: Config, o: Oracle, verdicts: seq<Verdict>)
    requires ValidConfig(c) && ValidDraws(c, o) && |verdicts| >= Samples(c)
    ensures RunSoFar(c, o, verdicts, 0, [], false, [])
  {
  }

  /** After the last batch: every response parsed, every call made, every row written. */
  lemma RunCompleted(c: Config, o: Oracle, verdicts: seq<Verdict>, batch: nat, requests: seq<Request>,
                     created: bool, rows: seq<Row>)
    requires ValidConfig(c) && ValidDraws(c, o) && |verdicts| >= Samples(c)
    requires batch >= NumBatches(c.sampleSize, c.batchSize)
    requires RunSoFar(c, o, verdicts, batch, requests, created, rows)
    ensures FirstUnparsed(verdicts, Samples(c)) == None
    ensures requests == Requests(c, o, Processed(c, o, verdicts))
    ensures created == (Saved(c, o, verdicts) > 0) && rows == FileAfter(c, o, verdicts, Saved(c, o, verdicts))
  {
    BatchCountIsNumBatches(c.sampleSize, c.batchSize);
    AllBatchesDone(c.sampleSize, c.batchSize, batch);
  }

  /**
   * One pass of `for batch in range(num_batches)`: compute [start, end),
   * generate the batch, and write it to the file (with the header for the
   * first batch, appended after that), or stop on the batch's first
   * rejected response, which leaves the file as it was.
   */
  method RunBatch(c: Config, o: Oracle, verdicts: seq<Verdict>, file: CsvFile, batch: nat, requestsBefore: seq<Request>)
    returns (requests: seq<Request>, failure: Option<string>)
    requires ValidConfig(c) && ValidDraws(c, o) && |verdicts| >= Samples(c)
    requires batch < NumBatches(c.sampleSize, c.batchSize)
    requires RunSoFar(c, o, verdicts, batch, requestsBefore, file.created, file.rows)
    modifies file
    ensures failure.None? ==> RunSoFar(c, o, verdicts, batch + 1, requests, file.created, file.rows)
    ensures failure.Some? ==>
              FirstUnparsed(verdicts, Samples(c)).Some? &&
              failure.value == verdicts[FirstUnparsed(verdicts, Samples(c)).value].error &&
              requests == Requests(c, o, Processed(c, o, verdicts)) &&
              file.created == (Saved(c, o, verdicts) > 0) && file.rows == FileAfter(c, o, verdicts, Saved(c, o, verdicts))
  {
    var s, b := c.sampleSize, c.batchSize;
    var start := BatchStart(batch, b);
    var end := BatchEnd(batch, b, s);
    BatchDrawn(c, o, batch);
    BatchCountIsNumBatches(s, b);
    assert start == if batch == 0 then 0 else BatchEnd(batch - 1, b, s) by {
      if batch > 0 { BatchesContiguous(s, b, batch - 1); }
    }
    var batchData, batchOutcome;
    batchData, requests, batchOutcome := GenerateBatch(c, o, verdicts, batch, start, end, requestsBefore);
    if batchOutcome.Failure? {
      BatchFailure(c, o, verdicts, batch, start, end);
      return requests, Some(batchOutcome.error);
    }
    var batchFrame := ToDataFrame(batchData);
    WriteBatch(c, o, verdicts, start, end, batchFrame.rows);
    if batch == 0 {
      file.Write(batchFrame);
    } else {
      file.Append(batchFrame);
    }
    failure := None;
  }

  /**
   * The batch loop of sdg, given the parser's verdict on every response:
   * returns the generator calls it made and whether it finished or stopped
   * on the first rejected response. The file ends up holding the header and
   * the rows of every batch completed before the stop.
   */
  method RunBatches(c: Config, o: Oracle, verdicts: seq<Verdict>, file: CsvFile) returns (requests: seq<Request>, outcome: Result<(), string>)
    requires ValidConfig(c) && ValidDraws(c, o) && |verdicts| >= Samples(c)
    requires !file.created && file.rows == []
    modifies file
    ensures requests == Requests(c, o, Processed(c, o, verdicts))
    ensures outcome == match FirstUnparsed(verdicts, Samples(c))
                       case None => Success(())
                       case Some(i) => Failure(verdicts[i].error)
    ensures file.created == (Saved(c, o, verdicts) > 0)
    ensures file.rows == FileAfter(c, o, verdicts, Saved(c, o, verdicts))
  {
    var numBatches := NumBatches(c.sampleSize, c.batchSize);
    requests := [];
    var batch := 0;
    RunBegun(c, o, verdicts);
    while batch < numBatches
      invariant 0 <= batch
      invariant RunSoFar(c, o, verdicts, batch, requests, file.created, file.rows)
    {
      var failure;
      requests, failure := RunBatch(c, o, verdicts, file, batch, requests);
      if failure.Some? {
        outcome := Failure(failure.value);
        return;
      }
      batch := batch + 1;
    }
    outcome := Success(());
    RunCompleted(c, o, verdicts, batch, requests, file.created, file.rows);
  }

  /** When a batch stops at its first rejected response, the file keeps exactly the batches before it. */
  lemma BatchFailure(c: Config, o: Oracle, verdicts: seq<Verdict>, batch: int, start: nat, end: nat)
    requires ValidConfig(c) && ValidDraws(c, o) && |verdicts| >= Samples(c) && 0 <= batch
    requires start == BatchStart(batch, c.batchSize) && end == BatchEnd(batch, c.batchSize, c.sampleSize)
    requires start < end <= Samples(c)
    requires FirstUnparsed(verdicts, start) == None
    requires FirstUnparsed(verdicts, end).Some?
    ensures FirstUnparsed(verdicts, Samples(c)) == FirstUnparsed(verdicts, end)
    ensures Processed(c, o, verdicts) == FirstUnparsed(verdicts, end).value + 1
    ensures Saved(c, o, verdicts) == start
    ensures start > 0 <==> batch > 0
  {
    var i := FirstUnparsed(verdicts, end).value;
    FirstUnparsedPrefix(verdicts, i, end);
    FirstUnparsedPrefix(verdicts, start, end);
    SampleInBatch(c.sampleSize, c.batchSize, batch, i);
    SavedOnFailure(c, o, verdicts, i);
  }

  /**
   * When response i is the first that fails to parse, the generator was
   * called for samples 0 .. i and the file holds exactly the batches
   * before i's batch: the rows of the samples of that batch that came
   * before i are lost with it.
   */
  lemma SavedOnFailure(c: Config, o: Oracle, verdicts: seq<Verdict>, i: int)
    requires ValidConfig(c) && ValidDraws(c, o) && |verdicts| >= Samples(c) && 0 <= i < Samples(c)
    requires FirstUnparsed(verdicts, i) == None
    requires verdicts[i].Failure?
    ensures FirstUnparsed(verdicts, Samples(c)) == Some(i)
    ensures Processed(c, o, verdicts) == i + 1
    ensures Saved(c, o, verdicts) == BatchStart(i / c.batchSize, c.batchSize) <= i < Saved(c, o, verdicts) + c.batchSize
    ensures Saved(c, o, verdicts) > 0 <==> i / c.batchSize > 0
  {
    FirstUnparsedAt(verdicts, i, Samples(c));
    StartOfBatchOf(c.batchSize, i);
    LocateStart(c.batchSize, i);
    LocateIsDivMod(i, c.batchSize);
  }

  /** The file never holds more rows than sdg generated, and it holds them all when it finishes. */
  lemma SavedBounds(c: Config, o: Oracle, verdicts: seq<Verdict>)
    requires ValidConfig(c) && ValidDraws(c, o) && |verdicts| >= Samples(c)
    ensures Saved(c, o, verdicts) <= Processed(c, o, verdicts) <= Samples(c)
    ensures FirstUnparsed(verdicts, Samples(c)).None? ==> Saved(c, o, verdicts) == Processed(c, o, verdicts) == Samples(c)
  {
    var r := FirstUnparsed(verdicts, Samples(c));
    if r.Some? {
      StartOfBatchOf(c.batchSize, r.value);
    }
  }

  /**
   * Row i of the file is the parsed response of sample i under the label
   * that sample's prompt asked for, the model argument, and the reasoning
   * exactly when save_reasoning is set; it has one cell per column.
   */
  lemma SavedRowMatchesRequest(c: Config, o: Oracle, verdicts: seq<Verdict>, i: nat)
    requires ValidConfig(c) && ValidDraws(c, o) && |verdicts| >= Samples(c) && i < Saved(c, o, verdicts)
    ensures verdicts[i].Success?
    ensures var row := DataRows(c, o, verdicts, Saved(c, o, verdicts))[i];
            var request := Requests(c, o, Processed(c, o, verdicts))[i];
            var (text, reasoning) := verdicts[i].value;
            |row| == |Header(c.saveReasoning)| &&
            row[0] == text && row[1] == request.classLabel && row[2] == request.model == c.model &&
            (c.saveReasoning ==> row[3] == reasoning)
  {
    SavedBounds(c, o, verdicts);
    DataRowsAt(c, o, verdicts, Saved(c, o, verdicts), i);
    RequestsAt(c, o, Processed(c, o, verdicts), i);
  }

  /** A run that finishes leaves the header and exactly sample_size data rows in the file. */
  lemma FinishedFile(c: Config, o: Oracle, verdicts: seq<Verdict>)
    requires ValidConfig(c) && ValidDraws(c, o) && |verdicts| >= Samples(c)
    requires FirstUnparsed(verdicts, Samples(c)).None? && c.sampleSize > 0
    ensures |FileAfter(c, o, verdicts, Saved(c, o, verdicts))| == c.sampleSize + 1
    ensures FileAfter(c, o, verdicts, Saved(c, o, verdicts))[0] == Header(c.saveReasoning)
  {
    SavedBounds(c, o, verdicts);
  }

  /** parse_string's verdict on every response, in order. */
  function Verdicts(responses: seq<string>): (r: seq<Verdict>)
    ensures |r| == |responses|
    ensures forall i :: 0 <= i < |r| ==> r[i] == ParseString(responses[i])
  {
    seq(|responses|, i requires 0 <= i < |responses| => ParseString(responses[i]))
  }

  /**
   * sdg with parse_string: it stops with parse_string's ValueError message
   * at the first response that has no OUTPUT:/REASONING: match.
   */
  method Sdg(c: Config, o: Oracle, file: CsvFile) returns (requests: seq<Request>, outcome: Result<(), string>)
    requires ValidConfig(c) && ValidDraws(c, o)
    requires !file.created && file.rows == []
    modifies file
    ensures var verdicts := Verdicts(o.responses);
            requests == Requests(c, o, Processed(c, o, verdicts)) &&
            outcome == (if FirstUnparsed(verdicts, Samples(c)).None? then Success(()) else Failure(FormatErrorMessage)) &&
            file.created == (Saved(c, o, verdicts) > 0) &&
            file.rows == FileAfter(c, o, verdicts, Saved(c, o, verdicts))
  {
    var verdicts := Verdicts(o.responses);
    requests, outcome := RunBatches(c, o, verdicts, file);
  }

  /** The first rejected verdict is at i exactly when verdict i is a rejection and all before it are not. */
  lemma FirstUnparsedIff(verdicts: seq<Verdict>, n: nat, i: nat)
    requires n <= |verdicts|
    ensures FirstUnparsed(verdicts, n) == Some(i) <==>
            i < n && verdicts[i].Failure? && forall j :: 0 <= j < i ==> verdicts[j].Success?
  {
    if i < n && verdicts[i].Failure? && forall j :: 0 <= j < i ==> verdicts[j].Success? {
      FirstUnparsedAt(verdicts, i, n);
    }
  }

  /** The pattern of parse_string matches somewhere in s. */
  ghost predicate HasMatch(s: string) {
    exists m :: IsMatch(s, m)
  }

  /** parse_string rejects a response exactly when the pattern has no match in it. */
  lemma RejectedIffNoMatch(s: string)
    ensures ParseString(s).Failure? <==> !HasMatch(s)
  {
    ParseStringIsFirstMatch(s);
  }

  /**
   * sdg stops at response i exactly when i is the first response in which
   * no `OUTPUT:` is followed by a `REASONING:` the pattern can use.
   */
  lemma SdgStopsAtFirstMismatch(responses: seq<string>, n: nat, i: nat)
    requires n <= |responses|
    ensures FirstUnparsed(Verdicts(responses), n) == Some(i) <==>
            i < n && !HasMatch(responses[i]) && forall j :: 0 <= j < i ==> HasMatch(responses[j])
  {
    var verdicts := Verdicts(responses);
    FirstUnparsedIff(verdicts, n, i);
    forall j | 0 <= j < n
      ensures verdicts[j].Failure? <==> !HasMatch(responses[j])
    {
      RejectedIffNoMatch(responses[j]);
    }
  }
}
