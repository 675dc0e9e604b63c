# UTF Cast core in Dafny

UTF Cast is a small Windows tool. It scans a directory, reports the encoding
of every matching file and, unless it runs detect-only, rewrites each file as
UTF-8. The logic this project models sits in `MainWindow`; the name
detector and the BOM probe it calls come from a helper library
(`UTFCast.SimpleHelpers`) that is not part of this model. Three parts are
modelled:

- **`Detector`** (`detector.dfy`) models `GuessFileEncoding`. It is a pure
  function from what reading the file yields (`Contents(bytes)` or
  `Unreadable`) to one of the labels `UTF8`, `Unicode`, `UTF32`, `UTF7` and
  `Default`. The five-byte buffer the C# code allocates is modelled as the
  file's first bytes followed by zeros (`ReadBuffer`). The lemmas show:
  - padding never completes a signature, because every signature ends in a
    nonzero byte;
  - the chain of tests agrees with its signature table read in order;
  - the four signatures cannot overlap, since each starts with a different
    byte;
  - only the first four bytes are inspected;
  - the short-file cases behave as described below.
- **`ScanPipeline`** (`scan.dfy`) models the `File` record, `StateType`,
  `WorkerOption` and the `worker_DoWork` loop. `DoWork` is a method with a
  `while` loop over the already enumerated paths. Its result is the sequence
  of records passed to `ReportProgress`, plus the final value of
  `eventArgs.Cancel`. The loop's collaborators come in as an `Environment`
  value:
  - the full-path function;
  - the name detector and the BOM probe;
  - the file contents seen by `GuessFileEncoding`;
  - the outcome of `ChangeFileEncoding` (returns, or throws a message);
  - the `CancellationPending` flag, given for each loop position.

  `ScanOutcome` states what the loop promises. `DoWork` is proved against it,
  and lemmas prove that the outcome is unique, that cancellation stops the
  run at the right file, and that the reported paths are a prefix of the
  input in order.
- **`RunController`** (`controller.dfy`) models the window's run state as a
  class. It has the option fields, `files`, `isStarted`, and the part of the
  worker's state the window uses (the cancellation request and the argument
  handed to the run). It has `StartOrStop`, the progress and completion
  handlers, and `StartStopButtonText`. `Run` is a client method. It drives
  one whole run through these methods and `DoWork`, and proves that `files`
  grows only at its end and finishes equal to the reported sequence.

Three facts about the code are worth stating on their own:
- A file shorter than five bytes is not always `Default`. A two-byte `FE FF`
  file is `Unicode` and a four-byte `00 00 FE FF` file is `UTF32`
  (`Detector.ShortFiles`). Only files shorter than two bytes are always
  `Default`.
- `StartOrStop` on a started window does not start a second run; it only
  requests cancellation.
- `WorkerOption` has no file pattern. `worker_DoWork` reads the window's
  `FilePattern` field directly (MainWindow.xaml.cs:168), in the enumeration
  this model leaves out.

## Model

| member | source | states |
|---|---|---|
| `Detector.ReadBuffer` | UTFCast/MainWindow.xaml.cs:209-213 | the buffer always has five bytes; byte i is the file's byte i when the file has one, else the zero of the freshly allocated array |
| `Detector.GuessFileEncoding` | UTFCast/MainWindow.xaml.cs:205-230 | an unreadable file (any exception while opening or reading) gives Default, so no exception escapes; a file shorter than two bytes gives Default |
| `Detector.PaddingPreservesSignature` | UTFCast/MainWindow.xaml.cs:209-222 | for a signature of at most five bytes ending in a nonzero byte, the zero-padded buffer starts with it iff the file's own bytes do |
| `Detector.GuessByIndices` | UTFCast/MainWindow.xaml.cs:215-224 | UTF8 iff the file starts EF BB BF; Unicode iff not that and it starts FE FF; UTF32 iff neither and it starts 00 00 FE FF; UTF7 iff none of those and it starts 2B 2F 76; Default iff none of the four |
| `Detector.GuessIsFirstMatch` | UTFCast/MainWindow.xaml.cs:215-224 | the classifier equals the label of the first entry of the ordered signature table that starts the file, or Default |
| `Detector.SignaturesAreExclusive` | UTFCast/MainWindow.xaml.cs:215-222 | no file starts with two different signatures of the table, so the order of the chain never changes a result |
| `Detector.Utf8WhateverFollows` | UTFCast/MainWindow.xaml.cs:215-216 | any file beginning with the UTF-8 mark is UTF8, whatever bytes follow it |
| `Detector.ShortFiles` | UTFCast/MainWindow.xaml.cs:209-224 | short reads act as zero padding: the empty file is Default, exactly FE FF is Unicode, exactly 00 00 FE FF is UTF32, and 00 00 FE is Default |
| `Detector.OnlyFourBytesInspected` | UTFCast/MainWindow.xaml.cs:215-222 | two files whose zero-padded first four bytes agree get the same label |
| `Detector.DependsOnlyOnHead` | UTFCast/MainWindow.xaml.cs:209-222 | two files that agree on their first five bytes (the whole of a shorter file) get the same label |
| `ScanPipeline.DoWork` | UTFCast/MainWindow.xaml.cs:170-202 | reports one record per path of a prefix of allFiles, in order; no record is built at or after the first position where cancellation is pending, and Cancel is set iff the loop stopped there before the end; each record is Detected with no message in detect-only runs, otherwise Converted when conversion returns, or Failed with the thrown message |
| `ScanPipeline.ReportedInvariant` | UTFCast/MainWindow.xaml.cs:178-199 | a reported record is Failed iff it carries an error message; it is Detected iff the run is detect-only; Converted only in a converting run; its path is the full form of the input path |
| `ScanPipeline.ReportedIsUnique` | UTFCast/MainWindow.xaml.cs:178-199 | the same path, options and collaborators always give the same record |
| `ScanPipeline.ScanOutcomeIsUnique` | UTFCast/MainWindow.xaml.cs:170-202 | two runs with the same paths, options and collaborators (such as two detect-only runs over an unchanged directory) report identical sequences and the same Cancel |
| `ScanPipeline.CancelAfterN` | UTFCast/MainWindow.xaml.cs:170-176 | if cancellation is first pending before file n, exactly n records are reported, and Cancel is set iff n is before the end |
| `ScanPipeline.ReportsFollowAllFiles` | UTFCast/MainWindow.xaml.cs:170-184 | the reported full paths are those of the first entries of allFiles, in the same order |
| `RunController.MainWindow.constructor` | UTFCast/MainWindow.xaml.cs:100-106 | a new window has an empty directory, pattern `*.*`, recursive and write-BOM on, detect-only off, no files, and is not started |
| `RunController.MainWindow.StartStopButtonText` | UTFCast/MainWindow.xaml.cs:82-88 | the caption is "Stop" iff the window is started and "Start" iff it is not |
| `RunController.MainWindow.StartOrStop` | UTFCast/MainWindow.xaml.cs:139-160 | on a started window it only requests cancellation and leaves Files and the run's argument unchanged; on an idle window it empties Files, hands over a snapshot of directory, recursive, write-BOM and detect-only, clears the cancellation request and sets IsStarted |
| `RunController.MainWindow.ProgressChanged` | UTFCast/MainWindow.xaml.cs:250-254 | the reported record is appended at the end of Files and nothing else changes |
| `RunController.MainWindow.RunWorkerCompleted` | UTFCast/MainWindow.xaml.cs:256-259 | completion clears IsStarted and changes nothing else |
| `RunController.Run` | UTFCast/MainWindow.xaml.cs:139-259 | a whole run from an idle window reports what DoWork specifies for the options as they were at the start; at the end Files equals the reports, the run's argument is that snapshot of the options, no cancellation is pending, and the button reads "Start"; only Files, IsStarted and the worker's request and argument may change (its loop invariant, with ProgressChanged's contract, keeps Files a prefix of the reports while events arrive) |

## Left out

- `ChangeFileEncoding` (the transcoding, lines 232-248) is an oracle that returns or throws with a message. It does its work through .NET's `StreamReader`, `StreamWriter` and `Encoding` classes, including the preamble `Encoding.UTF8` writes by itself. Because of that, the round trip "convert, then detect again" is proved only for the classifier half (`Detector.Utf8WhateverFollows`).
- The labels are names only. Which byte order each .NET `Encoding` object decodes is library behaviour and is not modelled.
- `FileEncoding.DetectFileEncoding` and `FileEncoding.HasByteOrderMarkUtf8` belong to a helper library this model does not contain. They are oracles returning a name and a flag.
- `Directory.GetFiles`, the glob match, the recursive search option and `Path.GetFullPath` are filesystem operations. The matching paths are an input sequence and the full path is an oracle. Exceptions from these calls, and from the two helper-library calls, are not modelled.
- `Detector.ReadBuffer`: one `Read` is assumed to fill `min(5, length)` bytes, which a local `FileStream` does. A read that returns fewer bytes while more remain is not modelled.
- The `BackgroundWorker` threading is reduced to sequential steps: `RunWorkerAsync`, `CancelAsync`, cross-thread `ReportProgress` marshalling and the completion event. The cancellation flag the loop sees is a predicate of the loop position. It is not connected to the window's `cancellationPending` field, which records only the Stop request and its reset by `RunWorkerAsync` (the worker's own reset at completion is not modelled), and `Run` does not interleave a Stop click with the loop.
- `RunController.MainWindow.StartOrStop`: the `InvalidOperationException` that `RunWorkerAsync` throws on a busy worker is not modelled. The window is idle only after the completion handler has run, and by then the worker is no longer busy.
- A `File` is modelled as a value that the loop rebuilds as it sets `State` and `ErrorMessage`, not as a shared object. The object is not shared until it is reported, and it is not changed afterwards.
- `INotifyPropertyChanged` notifications, `DelegateCommand` wiring, `DataContext`, the folder-browser dialog (`BrowseDirectory`) and the `ObservableCollection` change events are user-interface glue.
