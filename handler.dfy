/**
 * The `generate` tool handler: checks that the storage bucket is bound, fetches
 * the named file, parses it as a JSON array of question records, samples
 * `count` of them without replacement and formats each as a text item. Every
 * failure becomes a response holding one error item.
 */
module Handler {
  import opened Wrappers
  import opened JsValue
  import Sampler
  import Formatter

  /** The schema's default for `filename`. */
  const DefaultFilename: string := "CCPH_subject.json"
  /** The schema's default for `count`. */
  const DefaultCount: real := 30.0

  /** The tool's arguments as the caller sent them; an absent one takes its default. */
  datatype Args = Args(filename: Option<string>, count: Option<real>)

  function FilenameOf(args: Args): string
  {
    if args.filename.Some? then args.filename.value else DefaultFilename
  }

  function CountOf(args: Args): real
  {
    if args.count.Some? then args.count.value else DefaultCount
  }

  /**
   * What reading a key from the bucket gives: no object (`null`), the object's
   * text, or a rejected promise from `get` or `text()` with its message.
   */
  datatype Fetch = Missing | Stored(content: string) | Rejected(message: string)

  /** A bound bucket, seen as the answer it gives for each key. */
  type Bucket = string -> Fetch

  /** What `JSON.parse` gives for a text: a value, or a `SyntaxError` with its message. */
  datatype Parsed = Parsed(value: Value) | SyntaxError(message: string)

  /** The reason carried by an error item. */
  datatype Diagnostic =
    | StoreNotConfigured
    | FileNotFound(filename: string)
    | InvalidJson(filename: string, message: string)
    | NotAnArray(filename: string)
    | GenerationFailed(cause: Exception)

  /** One item of the response's `content`. */
  datatype Item = Text(text: Value) | Error(diagnostic: Diagnostic)

  /**
   * The checks before sampling, in the order the handler makes them: the
   * bucket is bound, the file exists and can be read, it parses, and it holds
   * an array. The result is the array's records or the first failure.
   */
  function Records(bucket: Option<Bucket>, parse: string -> Parsed, filename: string): Result<seq<Value>, Diagnostic>
  {
    if bucket.None? then Err(StoreNotConfigured)
    else
      match bucket.value(filename)
      case Missing => Err(FileNotFound(filename))
      case Rejected(m) => Err(GenerationFailed(StoreRejected(m)))
      case Stored(content) =>
        match parse(content)
        case SyntaxError(m) => Err(InvalidJson(filename, m))
        case Parsed(v) => if v.Arr? then Ok(v.items) else Err(NotAnArray(filename))
  }

  /** The handler's response: `Math.random` is the stream `rng`. */
  function Respond(bucket: Option<Bucket>, parse: string -> Parsed, args: Args, rng: nat -> Sampler.UnitReal): seq<Item>
  {
    match Records(bucket, parse, FilenameOf(args))
    case Err(d) => [Error(d)]
    case Ok(all) =>
      match Formatter.Format(Sampler.Selection(all, CountOf(args), rng))
      case Err(e) => [Error(GenerationFailed(e))]
      case Ok(texts) => seq(|texts|, j requires 0 <= j < |texts| => Text(texts[j]))
  }

  /** The handler itself: the checks, the sampling loop, then the formatting. */
  method Generate(bucket: Option<Bucket>, parse: string -> Parsed, args: Args, rng: nat -> Sampler.UnitReal)
    returns (content: seq<Item>)
    ensures content == Respond(bucket, parse, args, rng)
  {
    var filename := FilenameOf(args);
    var count := CountOf(args);
    var checked := Records(bucket, parse, filename);
    if checked.Err? {
      return [Error(checked.error)];
    }
    var selected := Sampler.Sample(checked.value, count, rng);
    var formatted := Formatter.Format(selected);
    if formatted.Err? {
      return [Error(GenerationFailed(formatted.error))];
    }
    var texts := formatted.value;
    content := seq(|texts|, j requires 0 <= j < |texts| => Text(texts[j]));
  }

  /** Without a bound bucket the answer is the one configuration error, whatever the arguments. */
  lemma StoreCheckedFirst(parse: string -> Parsed, args: Args, rng: nat -> Sampler.UnitReal)
    ensures Respond(None, parse, args, rng) == [Error(StoreNotConfigured)]
  {}

  /**
   * The checks pass exactly when the bucket is bound and yields the file's
   * text, and that text parses to an array; then the records are its elements.
   */
  lemma RecordsIff(bucket: Option<Bucket>, parse: string -> Parsed, filename: string)
    ensures Records(bucket, parse, filename).Ok? <==>
              bucket.Some? && bucket.value(filename).Stored?
              && parse(bucket.value(filename).content).Parsed?
              && parse(bucket.value(filename).content).value.Arr?
    ensures Records(bucket, parse, filename).Ok? ==>
              Records(bucket, parse, filename).value == parse(bucket.value(filename).content).value.items
  {}

  /** An error response holds exactly one item, and then no text item; a text response holds no error item. */
  lemma ErrorsStandAlone(bucket: Option<Bucket>, parse: string -> Parsed, args: Args, rng: nat -> Sampler.UnitReal)
    ensures var content := Respond(bucket, parse, args, rng);
            (|content| == 1 && content[0].Error?)
            || forall j | 0 <= j < |content| :: content[j].Text?
  {}

  /** A response without an error item means every check before sampling passed. */
  lemma TextsMeanChecksPassed(bucket: Option<Bucket>, parse: string -> Parsed, args: Args, rng: nat -> Sampler.UnitReal)
    ensures var content := Respond(bucket, parse, args, rng);
            (forall j | 0 <= j < |content| :: content[j].Text?) ==>
              Records(bucket, parse, FilenameOf(args)).Ok?
              && |content| == Sampler.Quota(CountOf(args), |Records(bucket, parse, FilenameOf(args)).value|)
  {
    var content := Respond(bucket, parse, args, rng);
    if Records(bucket, parse, FilenameOf(args)).Err? {
      assert !content[0].Text?;
    } else {
      var all := Records(bucket, parse, FilenameOf(args)).value;
      if Formatter.Format(Sampler.Selection(all, CountOf(args), rng)).Err? {
        assert !content[0].Text?;
      }
    }
  }

  /**
   * A successful response holds one text per selected record: `Quota` of them,
   * text `j` being the formatting of the record at the `j`-th chosen index, no
   * index chosen twice.
   */
  lemma SuccessShape(bucket: Option<Bucket>, parse: string -> Parsed, args: Args, rng: nat -> Sampler.UnitReal)
    requires Records(bucket, parse, FilenameOf(args)).Ok?
    requires Formatter.Format(Sampler.Selection(Records(bucket, parse, FilenameOf(args)).value, CountOf(args), rng)).Ok?
    ensures var all := Records(bucket, parse, FilenameOf(args)).value;
            var chosen := Sampler.Chosen(|all|, CountOf(args), rng);
            var content := Respond(bucket, parse, args, rng);
            |content| == |chosen| == Sampler.Quota(CountOf(args), |all|)
            && Sampler.Distinct(chosen)
            && forall j | 0 <= j < |chosen| ::
                 chosen[j] < |all| && Formatter.TextOf(all[chosen[j]]).Ok?
                 && content[j] == Text(Formatter.TextOf(all[chosen[j]]).value)
  {
    var all := Records(bucket, parse, FilenameOf(args)).value;
    var selected := Sampler.Selection(all, CountOf(args), rng);
    Sampler.SelectionFromDistinctIndices(all, CountOf(args), rng);
    Formatter.FormatIsPointwise(selected);
  }

  /** Leaving out an argument is the same as passing its default. */
  lemma DefaultsApply(bucket: Option<Bucket>, parse: string -> Parsed, rng: nat -> Sampler.UnitReal)
    ensures Respond(bucket, parse, Args(None, None), rng)
         == Respond(bucket, parse, Args(Some(DefaultFilename), Some(DefaultCount)), rng)
    ensures FilenameOf(Args(None, None)) == "CCPH_subject.json" && CountOf(Args(None, None)) == 30.0
  {}

  /** A file holding the empty array gives an empty response, not an error. */
  lemma EmptyArrayGivesNoItems(bucket: Option<Bucket>, parse: string -> Parsed, args: Args, rng: nat -> Sampler.UnitReal)
    requires Records(bucket, parse, FilenameOf(args)) == Ok([])
    ensures Respond(bucket, parse, args, rng) == []
  {}

  /** A key the bound bucket does not hold gives the single not-found error naming that key. */
  lemma MissingFileNamed(bucket: Bucket, parse: string -> Parsed, args: Args, rng: nat -> Sampler.UnitReal)
    requires bucket(FilenameOf(args)) == Missing
    ensures Respond(Some(bucket), parse, args, rng) == [Error(FileNotFound(FilenameOf(args)))]
  {}

  /** A rejected `get` or `text()` reaches the outer `catch`: one generation error carrying the rejection's message. */
  lemma RejectedFetchFails(bucket: Bucket, parse: string -> Parsed, args: Args, rng: nat -> Sampler.UnitReal)
    requires bucket(FilenameOf(args)).Rejected?
    ensures Respond(Some(bucket), parse, args, rng)
         == [Error(GenerationFailed(StoreRejected(bucket(FilenameOf(args)).message)))]
  {}

  /** A file whose text does not parse gives the single parse error naming the file and carrying the parser's message. */
  lemma UnparsableFileNamed(bucket: Bucket, parse: string -> Parsed, args: Args, rng: nat -> Sampler.UnitReal)
    requires bucket(FilenameOf(args)).Stored?
    requires parse(bucket(FilenameOf(args)).content).SyntaxError?
    ensures Respond(Some(bucket), parse, args, rng)
         == [Error(InvalidJson(FilenameOf(args), parse(bucket(FilenameOf(args)).content).message))]
  {}

  /** A file that parses to anything but an array gives the single not-an-array error naming the file. */
  lemma NonArrayFileNamed(bucket: Bucket, parse: string -> Parsed, args: Args, rng: nat -> Sampler.UnitReal)
    requires bucket(FilenameOf(args)).Stored?
    requires parse(bucket(FilenameOf(args)).content).Parsed?
    requires !parse(bucket(FilenameOf(args)).content).value.Arr?
    ensures Respond(Some(bucket), parse, args, rng) == [Error(NotAnArray(FilenameOf(args)))]
  {}

  /**
   * When every record is selected, one `null` record turns the whole response
   * into a single generation error, whatever the random draws.
   */
  lemma NullRecordFailsFullRequest(bucket: Option<Bucket>, parse: string -> Parsed, args: Args, rng: nat -> Sampler.UnitReal)
    requires Records(bucket, parse, FilenameOf(args)).Ok?
    requires Null in Records(bucket, parse, FilenameOf(args)).value
    requires CountOf(args) >= |Records(bucket, parse, FilenameOf(args)).value| as real
    ensures var content := Respond(bucket, parse, args, rng);
            |content| == 1 && content[0].Error? && content[0].diagnostic.GenerationFailed?
  {
    var all := Records(bucket, parse, FilenameOf(args)).value;
    var selected := Sampler.Selection(all, CountOf(args), rng);
    Sampler.SelectionOfAllIsPermutation(all, CountOf(args), rng);
    assert Null in multiset(selected);
    var j :| 0 <= j < |selected| && selected[j] == Null;
    Formatter.NullRecordAbortsBatch(selected, j);
  }

  /**
   * From a dataset whose every record carries a non-empty `question` string,
   * the response is those strings of the selected records, in selection order.
   */
  lemma QuestionDatasetGivesQuestions(bucket: Option<Bucket>, parse: string -> Parsed, args: Args, rng: nat -> Sampler.UnitReal)
    requires Records(bucket, parse, FilenameOf(args)).Ok?
    requires forall j | 0 <= j < |Records(bucket, parse, FilenameOf(args)).value| ::
               Formatter.HasQuestionText(Records(bucket, parse, FilenameOf(args)).value[j])
    ensures var selected := Sampler.Selection(Records(bucket, parse, FilenameOf(args)).value, CountOf(args), rng);
            var content := Respond(bucket, parse, args, rng);
            |content| == |selected|
            && forall j | 0 <= j < |selected| ::
                 Formatter.HasQuestionText(selected[j]) && content[j] == Text(selected[j].fields["question"])
  {
    var all := Records(bucket, parse, FilenameOf(args)).value;
    var selected := Sampler.Selection(all, CountOf(args), rng);
    Sampler.SelectionFromDistinctIndices(all, CountOf(args), rng);
    Formatter.QuestionRecordsFormat(selected);
  }
}
