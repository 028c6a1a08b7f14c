/** The automated backup runners: BackupSingle processes one library book,
    BackupLoop walks the books the processing stage reports as still to do.
    Each book is handed to the stage; on failure the operator is asked to
    abort, skip the book this time, or skip it permanently (status Error and
    a skip file). The stage, the dialog, the skip-file writer and the form's
    flags are oracles: their answers are inputs to the runner. */
module BackupRunner {
  import opened Wrappers
  import opened DataLayer
  import opened Diagnostics

  /** What the stage (download-decrypt plus PDF, or a single stage) reports
      for one book: success, a failure with its error list, or an exception. */
  datatype StageOutcome = Success | Failure(errors: seq<string>) | Thrown(fault: Fault)

  /** The answers a YesNo or AbortRetryIgnore message box can give. */
  datatype DialogResult = Abort | Retry | Ignore | Yes | No

  /** The two runner variants; they differ in their dialog and in which
      answer means "create a skip file". */
  datatype Kind = Single | Loop

  /** What the environment answers while one book is processed. The stack
      trace is the one the runtime attaches to the exception that Aggregate
      raises on an empty error list; skipFile is what writing the skip file
      returns: its path, or the fault it raised. */
  datatype ItemStep = ItemStep(
    outcome: StageOutcome,
    aggregateTrace: string,
    detailsFault: bool,
    decision: DialogResult,
    skipFile: Result<string, Fault>)

  /** The automated-backups form's flags, read after each book. */
  datatype FormFlags = FormFlags(isDisposed: bool, keepGoing: bool, keepGoingChecked: bool)

  /** One iteration of the loop: the book the iterator yields, and the
      environment's answers for it. */
  datatype Visit = Visit(libraryBook: LibraryBook, step: ItemStep, form: FormFlags)

  /** The input of a run: the single runner's (possibly null) book, or the
      books the loop will be offered. */
  datatype Job = SingleJob(libraryBook: Option<LibraryBook>, step: ItemStep) | LoopJob(visits: seq<Visit>)

  datatype LogEvent = Info(text: string) | ErrorText(text: string) | ErrorFault(fault: Fault, note: Option<string>)

  /** A skip file: the book's title and id and the diagnostic message. */
  datatype SkipFile = SkipFile(title: string, audibleProductId: string, message: string)

  /** Everything a run can change: book statuses, skip files, and (for the
      proofs) the stage invocations, the dialogs shown and the log. */
  datatype World = World(
    status: map<string, LiberatedStatus>,
    skipFiles: seq<SkipFile>,
    invoked: seq<LibraryBook>,
    prompts: seq<Prompt>,
    log: seq<LogEvent>)

  /** ProcessOneAsync either returns keep-going or lets an exception out. */
  datatype Outcome = Returned(keepGoing: bool) | Threw(fault: Fault)

  datatype Effect = Effect(world: World, outcome: Outcome)

  /** The continuation policy after a failure. */
  datatype Continuation = AbortAll | SkipOnce | SkipPermanently

  const NoElementsMessage := "Sequence contains no elements"
  const NotProcessedMessage := "ERROR. All books have not been processed. Most recent book: processing failed"
  const AllProcessedMessage := "Done. All books have been processed"
  const KeepGoingUncheckedMessage := "'Keep going' is unchecked"
  const DoneMessage := "DONE"

  /** The answer that means "skip this book permanently"; it is never the
      answer that stops the run. */
  function CreateSkipFileResult(kind: Kind): (r: DialogResult)
    ensures r != Abort
  {
    match kind
    case Single => Yes
    case Loop => Ignore
  }

  /** The buttons each variant's dialog offers. */
  function Buttons(kind: Kind): (r: set<DialogResult>)
    ensures CreateSkipFileResult(kind) in r
    ensures Abort in r <==> kind == Loop
  {
    match kind
    case Single => {Yes, No}
    case Loop => {Abort, Retry, Ignore}
  }

  /** Abort stops; the variant's skip-file answer skips permanently; any
      other answer skips this time only. */
  function Decide(kind: Kind, decision: DialogResult): (c: Continuation)
    ensures c == AbortAll <==> decision == Abort
    ensures c == SkipPermanently <==> decision == CreateSkipFileResult(kind)
    ensures c == SkipOnce <==> decision != Abort && decision != CreateSkipFileResult(kind)
  {
    if decision == Abort then AbortAll
    else if decision == CreateSkipFileResult(kind) then SkipPermanently
    else SkipOnce
  }

  /** The single runner's dialog cannot abort: every answer it offers
      continues. */
  lemma SingleDialogNeverAborts(decision: DialogResult)
    requires decision in Buttons(Single)
    ensures Decide(Single, decision) != AbortAll
  {
  }

  const ErrorHeader := "An error occurred while trying to process this book."

  lemma ConcatParts(a: string, b: string, c: string)
    ensures a <= a + b + c
    ensures (a + b + c)[|a|..|a| + |b|] == b
  {
  }

  /** The first line of each variant's dialog text, up to its "{0}". */
  function Intro(kind: Kind): (r: string)
    ensures ErrorHeader <= r
  {
    match kind
    case Single => ErrorHeader + " Skip this book permanently?\n"
    case Loop => ErrorHeader + "\n"
  }

  /** The instructions after the details: one paragraph per button. */
  function Instructions(kind: Kind): string {
    match kind
    case Single =>
      "\n\n- Click YES to skip this book permanently.\n\n- Click NO to skip the book this time only. We'll try again later."
    case Loop =>
      "\n\n- ABORT: stop processing books." +
      "\n\n- RETRY: retry this book later. Just skip it for now. Continue processing books. (Will try this book again later.)" +
      "\n\n- IGNORE: Permanently ignore this book. Continue processing books. (Will not try this book again later.)"
  }

  /** The skip dialog of a variant, showing a details block. */
  datatype Prompt = Prompt(kind: Kind, details: string) {
    /** The message box text: the variant's trimmed dialog text with the
        details in place of its "{0}". It opens with the shared error line and
        shows the details right after the first line. */
    function Text(): (r: string)
      ensures ErrorHeader <= r
      ensures |r| >= |Intro(kind)| + |details| && r[|Intro(kind)|..|Intro(kind)| + |details|] == details
    {
      var intro := Intro(kind);
      ConcatParts(intro, details, Instructions(kind));
      intro + details + Instructions(kind)
    }
  }

  const SkipFileLogHeader := "Created new 'skip' file"

  /** The trimmed "skip file created" log line: it starts with its header,
      whatever the id, title and path hold, and has no white space at either
      end. When the path ends in a visible character, the line is the header,
      then "[id] title", then the path, each on its own line. */
  function SkipFileLogText(book: Book, path: string): (r: string)
    ensures SkipFileLogHeader <= r
    ensures !IsWhiteSpace(r[0]) && !IsWhiteSpace(r[|r| - 1])
    ensures path != [] && !IsWhiteSpace(path[|path| - 1]) ==>
      r == SkipFileLogHeader + (("\n  [" + book.audibleProductId + "] " + book.title + "\n  ") + path)
  {
    var rest := ("\n  [" + book.audibleProductId + "] " + book.title + "\n  ") + path;
    assert SkipFileLogHeader[0] == 'C' && SkipFileLogHeader[|SkipFileLogHeader| - 1] == 'e';
    assert path != [] ==> rest[|rest| - 1] == path[|path| - 1];
    TrimLogLine('\n', SkipFileLogHeader, rest);
    Trim(['\n'] + SkipFileLogHeader + rest + ['\n'])
  }

  /** Trimming a line made of a white-space character, a header that starts
      and ends in non-white-space, the rest of the text, and the same
      white-space character keeps the header at the front; when the rest
      ends in non-white-space, it gives back exactly header and rest. */
  lemma TrimLogLine(c: char, header: string, rest: string)
    requires IsWhiteSpace(c)
    requires header != [] && !IsWhiteSpace(header[0]) && !IsWhiteSpace(header[|header| - 1])
    ensures var r := Trim([c] + header + rest + [c]);
      header <= r && !IsWhiteSpace(r[0]) && !IsWhiteSpace(r[|r| - 1])
    ensures rest != [] && !IsWhiteSpace(rest[|rest| - 1]) ==>
      Trim([c] + header + rest + [c]) == header + rest
  {
    TrimLogLineHeader(c, header, rest);
    if rest != [] && !IsWhiteSpace(rest[|rest| - 1]) {
      TrimLogLineExact(c, header, rest);
    }
  }

  lemma TrimLogLineHeader(c: char, header: string, rest: string)
    requires IsWhiteSpace(c)
    requires header != [] && !IsWhiteSpace(header[0]) && !IsWhiteSpace(header[|header| - 1])
    ensures var r := Trim([c] + header + rest + [c]);
      header <= r && !IsWhiteSpace(r[0]) && !IsWhiteSpace(r[|r| - 1])
  {
    var raw := [c] + header + rest + [c];
    assert raw == [c] + header + (rest + [c]);
    TrimKeepsHeader(c, header, rest + [c]);
  }

  lemma TrimLogLineExact(c: char, header: string, rest: string)
    requires IsWhiteSpace(c)
    requires header != [] && !IsWhiteSpace(header[0])
    requires rest != [] && !IsWhiteSpace(rest[|rest| - 1])
    ensures Trim([c] + header + rest + [c]) == header + rest
  {
    var mid := header + rest;
    assert [c] + header + rest + [c] == [c] + mid + [c];
    assert mid[0] == header[0] && mid[|mid| - 1] == rest[|rest| - 1];
    TrimBetween(c, mid);
  }

  /** Trimming a white-space character, a header that starts and ends in
      non-white-space, and a tail keeps the header at the front. */
  lemma TrimKeepsHeader(c: char, header: string, tail: string)
    requires IsWhiteSpace(c)
    requires header != [] && !IsWhiteSpace(header[0]) && !IsWhiteSpace(header[|header| - 1])
    ensures var r := Trim([c] + header + tail);
      header <= r && !IsWhiteSpace(r[0]) && !IsWhiteSpace(r[|r| - 1])
  {
    var raw := [c] + header + tail;
    var te := TrimEnd(raw);
    assert raw[|header|] == header[|header| - 1];
    assert |te| > |header|;
    assert te[..|header| + 1] == [c] + header;
    var r := TrimStart(te);
    assert te[1] == header[0];
    assert |te| - |r| == 1;
    assert r == te[1..];
  }

  function ErrorLines(errors: seq<string>): (r: seq<LogEvent>)
    ensures |r| == |errors|
    ensures forall i :: 0 <= i < |errors| ==> r[i] == ErrorText(errors[i])
  {
    seq(|errors|, i requires 0 <= i < |errors| => ErrorText(errors[i]))
  }

  /** The diagnostic message for a failed stage and the errors logged while
      computing it: the errors joined with "\r\n", or, for an exception
      (including the one Aggregate raises on an empty list), its message,
      "\r\n|\r\n" and its stack trace. */
  function FailureReport(outcome: StageOutcome, aggregateTrace: string): (r: (string, seq<LogEvent>))
    requires !outcome.Success?
    ensures outcome.Failure? && outcome.errors != [] ==>
      r.0 == JoinLines(outcome.errors) && r.1 == ErrorLines(outcome.errors)
    ensures outcome.Failure? && outcome.errors == [] ==>
      var f := Fault(NoElementsMessage, aggregateTrace); r.0 == FaultText(f) && r.1 == [ErrorFault(f, None)]
    ensures outcome.Thrown? ==> r.0 == FaultText(outcome.fault) && r.1 == [ErrorFault(outcome.fault, None)]
  {
    match outcome
    case Failure(errors) =>
      if errors != [] then
        AggregateJoinsInOrder(errors);
        (Aggregate(errors).value, ErrorLines(errors))
      else
        var f := Fault(NoElementsMessage, aggregateTrace);
        (FaultText(f), [ErrorFault(f, None)])
    case Thrown(f) => (FaultText(f), [ErrorFault(f, None)])
  }

  /** How ProcessOneAsync ends once the operator has answered: false exactly
      on Abort; the skip-file write's fault escapes exactly when the skip
      answer was given and the write failed; true otherwise. */
  function DecisionOutcome(kind: Kind, decision: DialogResult, skipFile: Result<string, Fault>): (r: Outcome)
    ensures r == Returned(false) <==> decision == Abort
    ensures r.Threw? <==> decision == CreateSkipFileResult(kind) && skipFile.Err?
    ensures r.Threw? ==> r.fault == skipFile.error
  {
    match Decide(kind, decision)
    case AbortAll => Returned(false)
    case SkipOnce => Returned(true)
    case SkipPermanently => if skipFile.Err? then Threw(skipFile.error) else Returned(true)
  }

  /** How ProcessOneAsync ends, from the answers alone: a success always
      continues; a failure ends as the operator's answer decides. */
  function ItemOutcome(kind: Kind, step: ItemStep): (r: Outcome)
    ensures step.outcome.Success? ==> r == Returned(true)
    ensures r == Returned(false) <==> !step.outcome.Success? && step.decision == Abort
    ensures r.Threw? <==> !step.outcome.Success? && step.decision == CreateSkipFileResult(kind) && step.skipFile.Err?
    ensures r.Threw? ==> r.fault == step.skipFile.error
  {
    if step.outcome.Success? then Returned(true)
    else DecisionOutcome(kind, step.decision, step.skipFile)
  }

  /** The end of ProcessOneAsync, after the dialog: Abort returns false, the
      variant's skip answer sets status Error and writes one skip file
      carrying the diagnostic message, any other answer changes nothing. */
  function Resolve(kind: Kind, w: World, lb: LibraryBook, decision: DialogResult,
                   skipFile: Result<string, Fault>, logMessage: string): (e: Effect)
    ensures e.outcome == DecisionOutcome(kind, decision, skipFile)
    ensures e.world.invoked == w.invoked && e.world.prompts == w.prompts
    ensures decision == CreateSkipFileResult(kind) ==> e.world.status == w.status[lb.book.audibleProductId := Error]
    ensures decision != CreateSkipFileResult(kind) ==> e.world == w
    ensures decision == CreateSkipFileResult(kind) && skipFile.Ok? ==>
      e.world.skipFiles == w.skipFiles + [SkipFile(lb.book.title, lb.book.audibleProductId, logMessage)]
    ensures skipFile.Err? ==> e.world.skipFiles == w.skipFiles
    // the skip file's creation is logged; a failed write leaves only the status
    ensures decision == CreateSkipFileResult(kind) && skipFile.Ok? ==>
      e.world.log == w.log + [Info(SkipFileLogText(lb.book, skipFile.value))]
    ensures decision == CreateSkipFileResult(kind) && skipFile.Err? ==>
      e.world == w.(status := w.status[lb.book.audibleProductId := Error])
  {
    if decision == Abort then Effect(w, Returned(false))
    else if decision == CreateSkipFileResult(kind) then
      var w1 := w.(status := w.status[lb.book.audibleProductId := Error]);
      match skipFile
      case Err(f) => Effect(w1, Threw(f))
      case Ok(path) =>
        var record := SkipFile(lb.book.title, lb.book.audibleProductId, logMessage);
        Effect(w1.(skipFiles := w1.skipFiles + [record], log := w1.log + [Info(SkipFileLogText(lb.book, path))]),
               Returned(true))
    else Effect(w, Returned(true))
  }

  /** ProcessOneAsync on world w. */
  function ProcessOneSpec(kind: Kind, w: World, lb: LibraryBook, step: ItemStep): (e: Effect)
    ensures e.outcome == ItemOutcome(kind, step)
    ensures e.world.invoked == w.invoked + [lb]
    // a success: nothing but the stage invocation happens
    ensures step.outcome.Success? ==> e.world == w.(invoked := w.invoked + [lb])
    // a failure: one dialog, whose details fall back to the placeholder
    ensures !step.outcome.Success? ==>
      e.world.prompts == w.prompts +
        [Prompt(kind, if step.detailsFault then DetailsPlaceholder else Details(lb.book))]
    // false exactly on Abort
    ensures e.outcome == Returned(false) <==> !step.outcome.Success? && step.decision == Abort
    // status Error exactly on the variant's skip answer, otherwise untouched
    ensures !step.outcome.Success? && step.decision == CreateSkipFileResult(kind) ==>
      e.world.status == w.status[lb.book.audibleProductId := Error]
    ensures step.outcome.Success? || step.decision != CreateSkipFileResult(kind) ==> e.world.status == w.status
    // exactly one skip file, holding the diagnostic message, or none
    ensures !step.outcome.Success? && step.decision == CreateSkipFileResult(kind) && step.skipFile.Ok? ==>
      e.world.skipFiles == w.skipFiles +
        [SkipFile(lb.book.title, lb.book.audibleProductId, FailureReport(step.outcome, step.aggregateTrace).0)]
    ensures step.outcome.Success? || step.decision != CreateSkipFileResult(kind) || step.skipFile.Err? ==>
      e.world.skipFiles == w.skipFiles
    // the errors are logged, then the "not processed" line, then the skip
    // file's creation when it was written
    ensures !step.outcome.Success? ==>
      e.world.log == w.log + FailureReport(step.outcome, step.aggregateTrace).1 + [ErrorText(NotProcessedMessage)] +
        (if step.decision == CreateSkipFileResult(kind) && step.skipFile.Ok?
         then [Info(SkipFileLogText(lb.book, step.skipFile.value))] else [])
  {
    var w1 := w.(invoked := w.invoked + [lb]);
    if step.outcome.Success? then Effect(w1, Returned(true))
    else
      var (logMessage, errorLog) := FailureReport(step.outcome, step.aggregateTrace);
      var w2 := w1.(log := w1.log + errorLog + [ErrorText(NotProcessedMessage)]);
      var details := if step.detailsFault then DetailsPlaceholder else Details(lb.book);
      var w3 := w2.(prompts := w2.prompts + [Prompt(kind, details)]);
      Resolve(kind, w3, lb, step.decision, step.skipFile, logMessage)
  }

  function AppendLog(w: World, e: LogEvent): (r: World)
    ensures r.log == w.log + [e]
    ensures r == w.(log := r.log)
  {
    w.(log := w.log + [e])
  }

  /** BackupSingle.RunAsync: nothing happens for a null book. */
  function RunSingleSpec(w: World, libraryBook: Option<LibraryBook>, step: ItemStep): (r: (World, Option<Fault>))
    ensures libraryBook.None? ==> r == (w, None)
  {
    match libraryBook
    case None => (w, None)
    case Some(lb) =>
      var e := ProcessOneSpec(Single, w, lb, step);
      (e.world, if e.outcome.Threw? then Some(e.outcome.fault) else None)
  }

  /** Whether the loop goes on to the next book after this one. */
  predicate Proceeds(v: Visit) {
    ItemOutcome(Loop, v.step) == Returned(true) && !v.form.isDisposed && v.form.keepGoing
  }

  /** BackupLoop.RunAsync: a fault escapes, Abort returns, a disposed form
      breaks to the final "Done" line, a cleared keep-going flag returns. */
  function RunLoopSpec(w: World, visits: seq<Visit>): (r: (World, Option<Fault>))
    // with no book left, only the "Done" line is logged
    ensures visits == [] ==> r == (AppendLog(w, Info(AllProcessedMessage)), None)
    // the log and the dialogs shown only grow
    ensures w.log <= r.0.log && w.prompts <= r.0.prompts
    // an escaping fault leaves the "not processed" line last, never "Done"
    ensures r.1.Some? ==> r.0.log != [] && r.0.log[|r.0.log| - 1] == ErrorText(NotProcessedMessage)
    decreases |visits|
  {
    if visits == [] then (AppendLog(w, Info(AllProcessedMessage)), None)
    else
      var v := visits[0];
      var e := ProcessOneSpec(Loop, w, v.libraryBook, v.step);
      match e.outcome
      case Threw(f) => (e.world, Some(f))
      case Returned(keepGoing) =>
        if !keepGoing then (e.world, None)
        else if v.form.isDisposed then (AppendLog(e.world, Info(AllProcessedMessage)), None)
        else if !v.form.keepGoing then
          (if v.form.keepGoingChecked then e.world else AppendLog(e.world, Info(KeepGoingUncheckedMessage)), None)
        else RunLoopSpec(e.world, visits[1..])
  }

  /** The number of books the loop hands to the stage. */
  function Reach(visits: seq<Visit>): (n: nat)
    ensures n <= |visits|
    ensures visits != [] ==> n > 0
    decreases |visits|
  {
    if visits == [] then 0
    else if Proceeds(visits[0]) then 1 + Reach(visits[1..])
    else 1
  }

  function Books(visits: seq<Visit>): (r: seq<LibraryBook>)
    ensures |r| == |visits|
    ensures forall i :: 0 <= i < |visits| ==> r[i] == visits[i].libraryBook
  {
    seq(|visits|, i requires 0 <= i < |visits| => visits[i].libraryBook)
  }

  /** The loop hands books to the stage in iterator order, and none after
      the one it stops at. */
  lemma {:induction false} LoopInvokesPrefixInOrder(w: World, visits: seq<Visit>)
    ensures RunLoopSpec(w, visits).0.invoked == w.invoked + Books(visits[..Reach(visits)])
    decreases |visits|
  {
    if visits != [] {
      var v := visits[0];
      var e := ProcessOneSpec(Loop, w, v.libraryBook, v.step);
      if Proceeds(v) {
        LoopInvokesPrefixInOrder(e.world, visits[1..]);
        assert visits[1..][..Reach(visits[1..])] == visits[1..Reach(visits)];
        assert Books(visits[..Reach(visits)]) == [v.libraryBook] + Books(visits[1..Reach(visits)]);
      } else {
        assert Books(visits[..1]) == [v.libraryBook];
      }
    }
  }

  /** The stop point is the first book that does not proceed. */
  lemma {:induction false} ReachIsFirstStop(visits: seq<Visit>, k: nat)
    requires k < |visits|
    requires forall i :: 0 <= i < k ==> Proceeds(visits[i])
    requires !Proceeds(visits[k])
    ensures Reach(visits) == k + 1
    decreases k
  {
    if k > 0 {
      ReachIsFirstStop(visits[1..], k - 1);
    }
  }

  /** The world after the loop has processed the first k books, each of
      which proceeded. */
  function LoopPrefix(w: World, visits: seq<Visit>, k: nat): (r: World)
    requires k <= |visits|
    ensures r.invoked == w.invoked + Books(visits[..k])
    decreases k
  {
    if k == 0 then w
    else
      var prev := LoopPrefix(w, visits, k - 1);
      var v := visits[k - 1];
      assert Books(visits[..k]) == Books(visits[..k - 1]) + [v.libraryBook];
      ProcessOneSpec(Loop, prev, v.libraryBook, v.step).world
  }

  lemma {:induction false} LoopUnfolds(w: World, visits: seq<Visit>, k: nat)
    requires k <= |visits|
    requires forall i :: 0 <= i < k ==> Proceeds(visits[i])
    ensures RunLoopSpec(w, visits) == RunLoopSpec(LoopPrefix(w, visits, k), visits[k..])
    decreases k
  {
    if k > 0 {
      LoopUnfolds(w, visits, k - 1);
      var prev := LoopPrefix(w, visits, k - 1);
      var rest := visits[k - 1..];
      assert rest[0] == visits[k - 1] && rest[1..] == visits[k..];
    }
  }

  /** After an Abort on book k, the run ends at once: no later book reaches
      the stage, no fault escapes, the last log line is the "not processed"
      error rather than the "Done" line, and the aborting book leaves the
      statuses and skip files as the earlier books left them. */
  lemma LoopAbortStops(w: World, visits: seq<Visit>, k: nat)
    requires k < |visits|
    requires forall i :: 0 <= i < k ==> Proceeds(visits[i])
    requires !visits[k].step.outcome.Success? && visits[k].step.decision == Abort
    ensures var r := RunLoopSpec(w, visits);
      && r.0.invoked == w.invoked + Books(visits[..k + 1])
      && r.1 == None
      && r.0.log != [] && r.0.log[|r.0.log| - 1] == ErrorText(NotProcessedMessage)
      && r.0.status == LoopPrefix(w, visits, k).status
      && r.0.skipFiles == LoopPrefix(w, visits, k).skipFiles
  {
    ReachIsFirstStop(visits, k);
    LoopInvokesPrefixInOrder(w, visits);
    LoopUnfolds(w, visits, k);
    var v := visits[k];
    var e := ProcessOneSpec(Loop, LoopPrefix(w, visits, k), v.libraryBook, v.step);
    assert visits[k..][0] == v;
    assert RunLoopSpec(w, visits) == (e.world, None);
  }

  /** A book the loop marks Error: its stage failed and the operator gave
      the skip-file answer. */
  predicate MarksError(v: Visit) {
    !v.step.outcome.Success? && v.step.decision == CreateSkipFileResult(Loop)
  }

  /** The skip file a visit leaves: one when it marks the book Error and the
      write succeeds, none otherwise. */
  function SkipRecord(v: Visit): seq<SkipFile> {
    if MarksError(v) && v.step.skipFile.Ok? then
      [SkipFile(v.libraryBook.book.title, v.libraryBook.book.audibleProductId,
                FailureReport(v.step.outcome, v.step.aggregateTrace).0)]
    else []
  }

  /** The skip files a run of visits leaves, in iterator order. */
  function SkipRecords(visits: seq<Visit>): seq<SkipFile>
    decreases |visits|
  {
    if visits == [] then [] else SkipRecord(visits[0]) + SkipRecords(visits[1..])
  }

  /** The statuses after the visits: each book the loop marks is set to
      Error, in iterator order. */
  function MarkErrors(status: map<string, LiberatedStatus>, visits: seq<Visit>): map<string, LiberatedStatus>
    decreases |visits|
  {
    if visits == [] then status
    else
      var v := visits[0];
      MarkErrors(if MarksError(v) then status[v.libraryBook.book.audibleProductId := Error] else status, visits[1..])
  }

  ghost predicate MarkedIn(visits: seq<Visit>, id: string) {
    exists i :: 0 <= i < |visits| && MarksError(visits[i]) && visits[i].libraryBook.book.audibleProductId == id
  }

  /** A product id some visit marks ends as Error; every other id keeps its
      status, or stays absent. */
  lemma {:induction false} MarkErrorsMarks(status: map<string, LiberatedStatus>, visits: seq<Visit>, id: string)
    ensures MarkedIn(visits, id) ==> id in MarkErrors(status, visits) && MarkErrors(status, visits)[id] == Error
    ensures !MarkedIn(visits, id) ==>
      && (id in MarkErrors(status, visits) <==> id in status)
      && (id in status ==> MarkErrors(status, visits)[id] == status[id])
    decreases |visits|
  {
    if visits != [] {
      var v := visits[0];
      var next := if MarksError(v) then status[v.libraryBook.book.audibleProductId := Error] else status;
      MarkErrorsMarks(next, visits[1..], id);
      if MarkedIn(visits[1..], id) {
        var i :| 0 <= i < |visits[1..]| && MarksError(visits[1..][i]) && visits[1..][i].libraryBook.book.audibleProductId == id;
        assert visits[i + 1] == visits[1..][i];
      }
    }
  }

  /** One book's effect on the statuses and the skip files. */
  lemma ProcessOneMarks(w: World, v: Visit)
    ensures var e := ProcessOneSpec(Loop, w, v.libraryBook, v.step);
      && e.world.status == (if MarksError(v) then w.status[v.libraryBook.book.audibleProductId := Error] else w.status)
      && e.world.skipFiles == w.skipFiles + SkipRecord(v)
  {
  }

  /** One step of the loop: it goes on from the first book's world when the
      book proceeds; otherwise it ends with that world's statuses, skip files
      and stage invocations. */
  lemma LoopStep(w: World, visits: seq<Visit>)
    requires visits != []
    ensures var e := ProcessOneSpec(Loop, w, visits[0].libraryBook, visits[0].step);
      && (Proceeds(visits[0]) ==> RunLoopSpec(w, visits) == RunLoopSpec(e.world, visits[1..]))
      && (!Proceeds(visits[0]) ==>
            && RunLoopSpec(w, visits).0.status == e.world.status
            && RunLoopSpec(w, visits).0.skipFiles == e.world.skipFiles
            && RunLoopSpec(w, visits).0.invoked == e.world.invoked)
  {
    var v := visits[0];
    var e := ProcessOneSpec(Loop, w, v.libraryBook, v.step);
    var r := RunLoopSpec(w, visits).0;
    if !Proceeds(v) {
      if e.outcome.Threw? || e.outcome == Returned(false) {
        assert r == e.world;
      } else if v.form.isDisposed {
        assert r == AppendLog(e.world, Info(AllProcessedMessage));
      } else {
        assert r == e.world || r == AppendLog(e.world, Info(KeepGoingUncheckedMessage));
      }
    }
  }

  /** Over a whole loop run, the statuses are those the reached books mark
      Error, in iterator order; the aborting book and the books never
      reached change none. */
  lemma {:induction false} LoopStatuses(w: World, visits: seq<Visit>)
    ensures RunLoopSpec(w, visits).0.status == MarkErrors(w.status, visits[..Reach(visits)])
    decreases |visits|
  {
    if visits != [] {
      var v := visits[0];
      var e := ProcessOneSpec(Loop, w, v.libraryBook, v.step);
      var n := Reach(visits);
      var reached := visits[..n];
      assert reached[0] == v && reached[1..] == visits[1..n];
      ProcessOneMarks(w, v);
      assert MarkErrors(w.status, reached) == MarkErrors(e.world.status, visits[1..n]);
      LoopStep(w, visits);
      if Proceeds(v) {
        LoopStatuses(e.world, visits[1..]);
        assert visits[1..][..Reach(visits[1..])] == visits[1..n];
      } else {
        assert visits[1..n] == [];
      }
    }
  }

  /** Over a whole loop run, the skip files are the old ones followed by one
      record for each reached book answered with Ignore whose write
      succeeded, in iterator order. */
  lemma {:induction false} LoopSkipFiles(w: World, visits: seq<Visit>)
    ensures RunLoopSpec(w, visits).0.skipFiles == w.skipFiles + SkipRecords(visits[..Reach(visits)])
    decreases |visits|
  {
    if visits != [] {
      var v := visits[0];
      var e := ProcessOneSpec(Loop, w, v.libraryBook, v.step);
      var n := Reach(visits);
      var reached := visits[..n];
      assert reached[0] == v && reached[1..] == visits[1..n];
      assert SkipRecords(reached) == SkipRecord(v) + SkipRecords(visits[1..n]);
      ProcessOneMarks(w, v);
      LoopStep(w, visits);
      if Proceeds(v) {
        LoopSkipFiles(e.world, visits[1..]);
        assert visits[1..][..Reach(visits[1..])] == visits[1..n];
      } else {
        assert visits[1..n] == [];
      }
    }
  }

  /** The fault that escapes the loop, if any, is the skip-file write fault of
      the last book the loop reached. */
  lemma {:induction false} LoopFaultComesFromLastBook(w: World, visits: seq<Visit>)
    requires visits != []
    ensures var last := ItemOutcome(Loop, visits[Reach(visits) - 1].step);
      RunLoopSpec(w, visits).1 == if last.Threw? then Some(last.fault) else None
    decreases |visits|
  {
    var v := visits[0];
    var e := ProcessOneSpec(Loop, w, v.libraryBook, v.step);
    if Proceeds(v) && visits[1..] != [] {
      LoopFaultComesFromLastBook(e.world, visits[1..]);
      assert visits[1..][Reach(visits[1..]) - 1] == visits[Reach(visits) - 1];
    }
  }

  /** A disposed form breaks out of the loop, which still logs "Done. All
      books have been processed". */
  lemma LoopDisposedStillLogsDone(w: World, visits: seq<Visit>, k: nat)
    requires k < |visits|
    requires forall i :: 0 <= i < k ==> Proceeds(visits[i])
    requires ItemOutcome(Loop, visits[k].step) == Returned(true) && visits[k].form.isDisposed
    ensures var r := RunLoopSpec(w, visits);
      && r.0.invoked == w.invoked + Books(visits[..k + 1])
      && r.1 == None
      && r.0.log != [] && r.0.log[|r.0.log| - 1] == Info(AllProcessedMessage)
  {
    ReachIsFirstStop(visits, k);
    LoopInvokesPrefixInOrder(w, visits);
    LoopUnfolds(w, visits, k);
  }

  /** A cleared keep-going flag returns without the "Done" line; the
      "unchecked" note is logged exactly when the box is unchecked. */
  lemma LoopKeepGoingClearedReturns(w: World, visits: seq<Visit>, k: nat)
    requires k < |visits|
    requires forall i :: 0 <= i < k ==> Proceeds(visits[i])
    requires ItemOutcome(Loop, visits[k].step) == Returned(true)
    requires !visits[k].form.isDisposed && !visits[k].form.keepGoing
    ensures var r := RunLoopSpec(w, visits);
      var item := ProcessOneSpec(Loop, LoopPrefix(w, visits, k), visits[k].libraryBook, visits[k].step).world;
      && r.1 == None
      && r.0.invoked == w.invoked + Books(visits[..k + 1])
      && r.0.log == item.log + (if visits[k].form.keepGoingChecked then [] else [Info(KeepGoingUncheckedMessage)])
  {
    ReachIsFirstStop(visits, k);
    LoopInvokesPrefixInOrder(w, visits);
    LoopUnfolds(w, visits, k);
  }

  /** When every book proceeds the loop visits them all, in order, and ends
      with the "Done" line. */
  lemma LoopExhausted(w: World, visits: seq<Visit>)
    requires forall i :: 0 <= i < |visits| ==> Proceeds(visits[i])
    ensures var r := RunLoopSpec(w, visits);
      && r.1 == None
      && r.0.invoked == w.invoked + Books(visits)
      && r.0.log != [] && r.0.log[|r.0.log| - 1] == Info(AllProcessedMessage)
  {
    LoopUnfolds(w, visits, |visits|);
    assert visits[..|visits|] == visits;
  }

  /** Three books where only the middle one fails: Abort leaves the third
      untouched, Retry skips the second without a record, Ignore marks it
      Error with one skip file; the loop goes on to the third book in both
      latter cases. */
  lemma ThreeBookLoop(w: World, a: Visit, b: Visit, c: Visit)
    requires a.step.outcome.Success? && c.step.outcome.Success?
    requires !a.form.isDisposed && a.form.keepGoing && !b.form.isDisposed && b.form.keepGoing
    requires b.step.outcome.Failure? && b.step.skipFile.Ok?
    ensures var r := RunLoopSpec(w, [a, b, c]).0;
      var record := SkipFile(b.libraryBook.book.title, b.libraryBook.book.audibleProductId,
                             FailureReport(b.step.outcome, b.step.aggregateTrace).0);
      && (b.step.decision == Abort ==>
            r.invoked == w.invoked + [a.libraryBook, b.libraryBook] && r.skipFiles == w.skipFiles && r.status == w.status)
      && (b.step.decision == Retry ==>
            r.invoked == w.invoked + [a.libraryBook, b.libraryBook, c.libraryBook]
            && r.skipFiles == w.skipFiles && r.status == w.status)
      && (b.step.decision == Ignore ==>
            r.invoked == w.invoked + [a.libraryBook, b.libraryBook, c.libraryBook]
            && r.skipFiles == w.skipFiles + [record]
            && r.status == w.status[b.libraryBook.book.audibleProductId := Error])
  {
    var visits := [a, b, c];
    LoopInvokesPrefixInOrder(w, visits);
    LoopStatuses(w, visits);
    LoopSkipFiles(w, visits);
    assert visits[1..] == [b, c] && [b, c][1..] == [c] && [c][1..] == [];
    if b.step.decision == Abort {
      ReachIsFirstStop(visits, 1);
      assert visits[..2] == [a, b] && [a, b][1..] == [b] && [b][1..] == [];
      assert Books([a, b]) == [a.libraryBook, b.libraryBook];
    } else {
      assert Reach(visits) == 3;
      assert visits[..3] == visits;
      assert Books(visits) == [a.libraryBook, b.libraryBook, c.libraryBook];
      assert !MarksError(a) && !MarksError(c) && SkipRecord(a) == [] && SkipRecord(c) == [];
      assert SkipRecords(visits) == SkipRecord(b) by {
        assert SkipRecords(visits) == SkipRecord(a) + SkipRecords([b, c]);
        assert SkipRecords([b, c]) == SkipRecord(b) + SkipRecords([c]);
        assert SkipRecords([c]) == SkipRecord(c) + SkipRecords([]);
      }
      assert MarkErrors(w.status, visits) ==
             (if MarksError(b) then w.status[b.libraryBook.book.audibleProductId := Error] else w.status) by {
        assert MarkErrors(w.status, visits) == MarkErrors(w.status, [b, c]);
        var s1 := if MarksError(b) then w.status[b.libraryBook.book.audibleProductId := Error] else w.status;
        assert MarkErrors(w.status, [b, c]) == MarkErrors(s1, [c]);
        assert MarkErrors(s1, [c]) == MarkErrors(s1, []);
      }
    }
  }

  /** RunAsync of the job's variant. */
  function RunVariantSpec(w: World, job: Job): (World, Option<Fault>) {
    match job
    case SingleJob(lb, step) => RunSingleSpec(w, lb, step)
    case LoopJob(visits) => RunLoopSpec(w, visits)
  }

  /** RunBackupAsync: run the variant, log an escaping fault, then "DONE". */
  function RunBackupSpec(w: World, job: Job): (r: World)
    ensures r.log != [] && r.log[|r.log| - 1] == Info(DoneMessage)
    ensures job.SingleJob? && job.libraryBook.None? ==> r == AppendLog(w, Info(DoneMessage))
  {
    var (w1, fault) := RunVariantSpec(w, job);
    var w2 := if fault.Some? then AppendLog(w1, ErrorFault(fault.value, None)) else w1;
    AppendLog(w2, Info(DoneMessage))
  }

  /** Whichever variant ran, a fault escaping it is logged just before
      "DONE", and the run itself still completes with the variant's statuses,
      skip files and stage invocations. */
  lemma FaultLoggedBeforeDone(w: World, job: Job)
    requires RunVariantSpec(w, job).1.Some?
    ensures var (v, fault) := RunVariantSpec(w, job); var r := RunBackupSpec(w, job);
      && r.log == v.log + [ErrorFault(fault.value, None), Info(DoneMessage)]
      && r.status == v.status && r.skipFiles == v.skipFiles && r.invoked == v.invoked
  {
  }

  /** A loop job's escaping fault, which the run logs before "DONE", is the
      skip-file write fault of the last book the loop reached. */
  lemma LoopFaultLoggedBeforeDone(w: World, visits: seq<Visit>)
    requires visits != []
    requires ItemOutcome(Loop, visits[Reach(visits) - 1].step).Threw?
    ensures var r := RunBackupSpec(w, LoopJob(visits));
      |r.log| >= 2 && r.log[|r.log| - 2] == ErrorFault(visits[Reach(visits) - 1].step.skipFile.error, None)
  {
    LoopFaultComesFromLastBook(w, visits);
  }

  /** The runner, with the state it changes: the library store's statuses,
      the skip files on disk, and (ghost) the stage invocations, the
      dialogs shown and the log. */
  class Runner {
    const kind: Kind
    var status: map<string, LiberatedStatus>
    var skipFiles: seq<SkipFile>
    ghost var invoked: seq<LibraryBook>
    ghost var prompts: seq<Prompt>
    ghost var log: seq<LogEvent>

    ghost function State(): World
      reads this
    {
      World(status, skipFiles, invoked, prompts, log)
    }

    constructor (kind: Kind, status: map<string, LiberatedStatus>, skipFiles: seq<SkipFile>)
      ensures this.kind == kind
      ensures State() == World(status, skipFiles, [], [], [])
    {
      this.kind := kind;
      this.status := status;
      this.skipFiles := skipFiles;
      invoked := [];
      prompts := [];
      log := [];
    }

    /** ProcessOneAsync. */
    method ProcessOne(libraryBook: LibraryBook, step: ItemStep) returns (outcome: Outcome)
      modifies this
      ensures Effect(State(), outcome) == ProcessOneSpec(kind, old(State()), libraryBook, step)
    {
      invoked := invoked + [libraryBook];
      var logMessage: string;
      match step.outcome {
        case Success =>
          return Returned(true);
        case Failure(errors) =>
          for i := 0 to |errors|
            modifies this`log
            invariant log == old(log) + ErrorLines(errors[..i])
          {
            assert ErrorLines(errors[..i + 1]) == ErrorLines(errors[..i]) + [ErrorText(errors[i])];
            log := log + [ErrorText(errors[i])];
          }
          assert errors[..|errors|] == errors;
          var aggregate := Aggregate(errors);
          if aggregate.Some? {
            AggregateJoinsInOrder(errors);
            logMessage := aggregate.value;
          } else {
            var ex := Fault(NoElementsMessage, step.aggregateTrace);
            log := log + [ErrorFault(ex, None)];
            logMessage := FaultText(ex);
          }
        case Thrown(ex) =>
          log := log + [ErrorFault(ex, None)];
          logMessage := FaultText(ex);
      }
      assert logMessage == FailureReport(step.outcome, step.aggregateTrace).0;
      assert log == old(log) + FailureReport(step.outcome, step.aggregateTrace).1;
      log := log + [ErrorText(NotProcessedMessage)];

      var details := if step.detailsFault then DetailsPlaceholder else Details(libraryBook.book);
      prompts := prompts + [Prompt(kind, details)];
      var dialogResult := step.decision;
      ghost var asked := State();
      ghost var w0 := old(State());
      assert !step.outcome.Success?;
      assert asked == w0.(invoked := w0.invoked + [libraryBook],
                          log := w0.log + FailureReport(step.outcome, step.aggregateTrace).1 + [ErrorText(NotProcessedMessage)],
                          prompts := w0.prompts + [Prompt(kind, details)]);
      assert ProcessOneSpec(kind, old(State()), libraryBook, step)
        == Resolve(kind, asked, libraryBook, step.decision, step.skipFile, logMessage);

      if dialogResult == Abort {
        return Returned(false);
      }
      if dialogResult == CreateSkipFileResult(kind) {
        status := status[libraryBook.book.audibleProductId := Error];
        match step.skipFile {
          case Err(ex) =>
            return Threw(ex);
          case Ok(path) =>
            skipFiles := skipFiles + [SkipFile(libraryBook.book.title, libraryBook.book.audibleProductId, logMessage)];
            log := log + [Info(SkipFileLogText(libraryBook.book, path))];
        }
      }
      return Returned(true);
    }

    /** BackupSingle.RunAsync. */
    method RunSingle(libraryBook: Option<LibraryBook>, step: ItemStep) returns (fault: Option<Fault>)
      requires kind == Single
      modifies this
      ensures (State(), fault) == RunSingleSpec(old(State()), libraryBook, step)
    {
      fault := None;
      if libraryBook.Some? {
        var outcome := ProcessOne(libraryBook.value, step);
        if outcome.Threw? {
          fault := Some(outcome.fault);
        }
      }
    }

    /** BackupLoop.RunAsync. */
    method RunLoop(visits: seq<Visit>) returns (fault: Option<Fault>)
      requires kind == Loop
      modifies this
      ensures (State(), fault) == RunLoopSpec(old(State()), visits)
    {
      var i := 0;
      while i < |visits|
        invariant 0 <= i <= |visits|
        invariant RunLoopSpec(State(), visits[i..]) == RunLoopSpec(old(State()), visits)
      {
        var v := visits[i];
        assert visits[i..][0] == v && visits[i..][1..] == visits[i + 1..];
        var outcome := ProcessOne(v.libraryBook, v.step);
        match outcome {
          case Threw(f) =>
            return Some(f);
          case Returned(keepGoing) =>
            if !keepGoing {
              return None;
            }
        }
        if v.form.isDisposed {
          break;
        }
        if !v.form.keepGoing {
          if !v.form.keepGoingChecked {
            log := log + [Info(KeepGoingUncheckedMessage)];
          }
          return None;
        }
        i := i + 1;
      }
      log := log + [Info(AllProcessedMessage)];
      return None;
    }

    /** RunBackupAsync. */
    method RunBackup(job: Job)
      requires job.SingleJob? <==> kind == Single
      modifies this
      ensures State() == RunBackupSpec(old(State()), job)
    {
      var fault: Option<Fault>;
      match job {
        case SingleJob(lb, step) =>
          fault := RunSingle(lb, step);
        case LoopJob(visits) =>
          fault := RunLoop(visits);
      }
      if fault.Some? {
        log := log + [ErrorFault(fault.value, None)];
      }
      log := log + [Info(DoneMessage)];
    }
  }
}
