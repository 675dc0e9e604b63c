/** The start/stop controller of UTF Cast's main window: the IsStarted toggle,
    the Files list the progress events fill, and the options snapshot handed
    to the background worker. */
module RunController {
  import opened ScanPipeline

  class MainWindow {
    // options bound to the window's controls
    var directory: string
    var filePattern: string
    var recursive: bool
    var writeBom: bool
    var detectOnly: bool

    // results of the current or last run
    var files: seq<File>
    var isStarted: bool

    // the part of the BackgroundWorker's state the window drives:
    // cancellationPending records only a Stop request (CancelAsync) and its
    // reset when a new run starts (RunWorkerAsync); the loop's own view of
    // cancellation is ScanPipeline.Environment.cancellationPending
    var cancellationPending: bool
    var workerArgument: Option<WorkerOption>

    /** The window's initial state: the defaults its constructor sets. */
    constructor ()
      ensures directory == "" && filePattern == "*.*"
      ensures recursive && writeBom && !detectOnly
      ensures files == [] && !isStarted
      ensures !cancellationPending && workerArgument == None
    {
      directory := "";
      filePattern := "*.*";
      recursive := true;
      writeBom := true;
      detectOnly := false;
      files := [];
      isStarted := false;
      cancellationPending := false;
      workerArgument := None;
    }

    /** The caption of the start/stop button. */
    function StartStopButtonText(): (text: string)
      reads this
      ensures text == "Stop" <==> isStarted
      ensures text == "Start" <==> !isStarted
    {
      if isStarted then "Stop" else "Start"
    }

    /** Running: only request cancellation. Idle: clear the results, hand a
        snapshot of the options to a new run (RunWorkerAsync clears any
        earlier cancellation request) and mark the window started. */
    method StartOrStop()
      modifies this`files, this`isStarted, this`cancellationPending, this`workerArgument
      ensures isStarted
      ensures old(isStarted) ==> cancellationPending && files == old(files) && workerArgument == old(workerArgument)
      ensures !old(isStarted) ==> files == [] && !cancellationPending
      ensures !old(isStarted) ==> workerArgument == Some(WorkerOption(directory, recursive, writeBom, detectOnly))
    {
      if isStarted {
        cancellationPending := true;
      } else {
        files := [];
        var workerOption := WorkerOption(directory, recursive, writeBom, detectOnly);
        workerArgument := Some(workerOption);
        cancellationPending := false;
        isStarted := true;
      }
    }

    /** A progress event appends its record at the end of Files. */
    method ProgressChanged(newFile: File)
      modifies this`files
      ensures files == old(files) + [newFile]
    {
      files := files + [newFile];
    }

    /** Completion of a run (finished or cancelled) clears IsStarted. */
    method RunWorkerCompleted()
      modifies this`isStarted
      ensures !isStarted
    {
      isStarted := false;
    }
  }

  /** One whole run as the worker's events deliver it to an idle window:
      StartOrStop, the loop's reports one progress event at a time, then
      completion. The loop invariant keeps Files a prefix of the reports and
      the button on "Stop" while the events arrive; afterwards Files holds
      exactly the reports, in order, the run's argument is the snapshot of
      the options and the button reads "Start". The option fields are outside
      the frame and so stay as they were. */
  method Run(window: MainWindow, allFiles: seq<string>, env: Environment)
    returns (reports: seq<File>, cancel: bool)
    requires !window.isStarted
    modifies window`files, window`isStarted, window`cancellationPending, window`workerArgument
    ensures window.workerArgument == Some(WorkerOption(old(window.directory), old(window.recursive),
                                                       old(window.writeBom), old(window.detectOnly)))
    ensures ScanOutcome(allFiles, WorkerOption(old(window.directory), old(window.recursive),
                                               old(window.writeBom), old(window.detectOnly)), env, reports, cancel)
    ensures window.files == reports && !window.cancellationPending
    ensures !window.isStarted && window.StartStopButtonText() == "Start"
  {
    window.StartOrStop();
    var option := window.workerArgument.value;
    reports, cancel := DoWork(allFiles, option, env);
    var i := 0;
    while i < |reports|
      invariant 0 <= i <= |reports|
      invariant window.files == reports[..i]
      invariant window.workerArgument == Some(option) && !window.cancellationPending
      invariant window.isStarted && window.StartStopButtonText() == "Stop"
    {
      window.ProgressChanged(reports[i]);
      i := i + 1;
    }
    window.RunWorkerCompleted();
  }
}
