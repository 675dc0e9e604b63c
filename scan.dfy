/** The per-run scan of UTF Cast (MainWindow.worker_DoWork): the record kept
    for each file, the options snapshot, and the loop that detects, converts
    and reports the files of a run in order, honouring cancellation. */
module ScanPipeline {
  import opened Detector

  datatype Option<T> = None | Some(value: T)

  datatype StateType = Detected | Converted | Failed

  /** One scanned file; `errorMessage` is None where the C# code leaves it null. */
  datatype File = File(
    fullPath: string,
    encodingName: string,
    hasBom: bool,
    state: StateType,
    errorMessage: Option<string>)

  /** The options snapshot passed to the background worker. */
  datatype WorkerOption = WorkerOption(directory: string, recursive: bool, writeBom: bool, detectOnly: bool)

  /** How a call of ChangeFileEncoding ends: it returns, or it throws with a message. */
  datatype ChangeOutcome = Returned | Threw(message: string)

  /** The collaborators of the loop whose code is not part of this model. */
  datatype Environment = Environment(
    fullPath: string -> string,                                  // Path.GetFullPath
    detectFileEncoding: string -> string,                        // FileEncoding.DetectFileEncoding
    hasByteOrderMarkUtf8: string -> bool,                        // FileEncoding.HasByteOrderMarkUtf8
    read: string -> FileRead,                                     // opening and reading a file at a full path
    changeFileEncoding: (string, EncodingLabel, bool) -> ChangeOutcome,  // ChangeFileEncoding(path, source, UTF8, writeBom)
    cancellationPending: nat -> bool)                             // worker.CancellationPending, at the top of iteration i

  /** The record the loop reports for `path`, field by field: detection
      fills path, encoding name and mark; then, unless detect-only, one
      conversion attempt from the guessed source encoding decides the state. */
  predicate Reported(file: File, path: string, option: WorkerOption, env: Environment) {
    var full := env.fullPath(path);
    && file.fullPath == full
    && file.encodingName == env.detectFileEncoding(path)
    && file.hasBom == env.hasByteOrderMarkUtf8(path)
    && if option.detectOnly then
         file.state == Detected && file.errorMessage == None
       else
         match env.changeFileEncoding(full, GuessFileEncoding(env.read(full)), option.writeBom)
         case Returned => file.state == Converted && file.errorMessage == None
         case Threw(message) => file.state == Failed && file.errorMessage == Some(message)
  }

  /** What a run of the loop over `allFiles` reports: one record per path of
      a prefix of `allFiles`, in order, each checked for cancellation first;
      the run stops (and sets Cancel) exactly at the first position where
      cancellation is pending. */
  predicate ScanOutcome(allFiles: seq<string>, option: WorkerOption, env: Environment,
                        reports: seq<File>, cancel: bool) {
    && |reports| <= |allFiles|
    && (forall i :: 0 <= i < |reports| ==> !env.cancellationPending(i))
    && (forall i :: 0 <= i < |reports| ==> Reported(reports[i], allFiles[i], option, env))
    && (cancel <==> |reports| < |allFiles|)
    && (|reports| < |allFiles| ==> env.cancellationPending(|reports|))
  }

  /** worker_DoWork, from the point where the matching paths are known.
      `reports` is the sequence of ReportProgress calls, `cancel` the final
      value of eventArgs.Cancel. */
  method DoWork(allFiles: seq<string>, option: WorkerOption, env: Environment)
    returns (reports: seq<File>, cancel: bool)
    ensures ScanOutcome(allFiles, option, env, reports, cancel)
  {
    reports := [];
    cancel := false;
    var i := 0;
    while i < |allFiles|
      invariant 0 <= i <= |allFiles|
      invariant |reports| == i && !cancel
      invariant forall k :: 0 <= k < i ==> !env.cancellationPending(k)
      invariant forall k :: 0 <= k < i ==> Reported(reports[k], allFiles[k], option, env)
    {
      if env.cancellationPending(i) {
        cancel := true;
        break;
      }
      var filePath := allFiles[i];
      var file := File(env.fullPath(filePath), env.detectFileEncoding(filePath),
                       env.hasByteOrderMarkUtf8(filePath), Detected, None);
      if !option.detectOnly {
        var sourceEncoding := GuessFileEncoding(env.read(file.fullPath));
        match env.changeFileEncoding(file.fullPath, sourceEncoding, option.writeBom)
        case Returned =>
          file := file.(state := Converted);
        case Threw(message) =>
          file := file.(errorMessage := Some(message));
          file := file.(state := Failed);
      }
      reports := reports + [file];
      i := i + 1;
    }
  }

  /** The record invariant: Failed exactly when an error message is set,
      Converted only in a converting run, Detected exactly in a detect-only run. */
  lemma ReportedInvariant(file: File, path: string, option: WorkerOption, env: Environment)
    requires Reported(file, path, option, env)
    ensures file.state == Failed <==> file.errorMessage.Some?
    ensures file.state == Detected <==> option.detectOnly
    ensures file.state == Converted ==> !option.detectOnly
    ensures file.fullPath == env.fullPath(path)
  {
  }

  /** A path determines its record: the same path under the same options and
      collaborators is always reported alike. */
  lemma ReportedIsUnique(file1: File, file2: File, path: string, option: WorkerOption, env: Environment)
    requires Reported(file1, path, option, env) && Reported(file2, path, option, env)
    ensures file1 == file2
  {
  }

  /** A run is determined by its inputs: two runs over the same paths, with the
      same options and collaborators (for instance two detect-only runs over an
      unchanged directory) report identical sequences and the same Cancel. */
  lemma ScanOutcomeIsUnique(allFiles: seq<string>, option: WorkerOption, env: Environment,
                            reports1: seq<File>, cancel1: bool, reports2: seq<File>, cancel2: bool)
    requires ScanOutcome(allFiles, option, env, reports1, cancel1)
    requires ScanOutcome(allFiles, option, env, reports2, cancel2)
    ensures reports1 == reports2 && cancel1 == cancel2
  {
  }

  /** Cancellation first observed before file n: exactly n records are
      reported and Cancel is set iff the run stopped before the end. */
  lemma CancelAfterN(allFiles: seq<string>, option: WorkerOption, env: Environment,
                     reports: seq<File>, cancel: bool, n: nat)
    requires ScanOutcome(allFiles, option, env, reports, cancel)
    requires n <= |allFiles|
    requires forall i :: 0 <= i < n ==> !env.cancellationPending(i)
    requires n < |allFiles| ==> env.cancellationPending(n)
    ensures |reports| == n
    ensures cancel <==> n < |allFiles|
  {
  }

  function FullPaths(paths: seq<string>, env: Environment): (full: seq<string>)
    ensures |full| == |paths|
    ensures forall i :: 0 <= i < |paths| ==> full[i] == env.fullPath(paths[i])
  {
    if paths == [] then [] else [env.fullPath(paths[0])] + FullPaths(paths[1..], env)
  }

  function ReportedPaths(reports: seq<File>): (paths: seq<string>)
    ensures |paths| == |reports|
    ensures forall i :: 0 <= i < |reports| ==> paths[i] == reports[i].fullPath
  {
    if reports == [] then [] else [reports[0].fullPath] + ReportedPaths(reports[1..])
  }

  /** The reported paths are (the full forms of) a prefix of allFiles, in order. */
  lemma ReportsFollowAllFiles(allFiles: seq<string>, option: WorkerOption, env: Environment,
                              reports: seq<File>, cancel: bool)
    requires ScanOutcome(allFiles, option, env, reports, cancel)
    ensures ReportedPaths(reports) == FullPaths(allFiles[..|reports|], env)
  {
  }
}
