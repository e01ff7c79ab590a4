/** The collaborators the disk-copy step of the QEMU builder talks to: the build
    configuration, the driver, the user interface, the host operating system and the
    shared state bag. Everything foreign is a stand-in whose answers are fixed when it is
    built and which records every call it receives in one trace shared by all of them,
    so that the step's contract can say which calls it made and in what order. */
module Collaborators {
  import opened Wrappers

  /** The fields of the QEMU builder's configuration that the step reads. */
  datatype Config = Config(
    outputDir: string,
    vmName: string,
    format: string,
    diskImage: bool,
    useBackingFile: bool)

  /** A file handle: the position of the open file in the host's table of handles. */
  type Fd = nat

  /** An externally visible call, in the order the step made it. */
  datatype Event =
    | InspectImage(path: string)          // Driver.GetImageFormat
    | RunQemuImg(args: seq<string>)       // Driver.QemuImg
    | SayMessage(message: string)         // Ui.Say
    | ShowError(message: string)          // Ui.Error
    | OpenFile(path: string)              // os.Open
    | CreateFile(path: string)            // os.Create
    | CopyData(dst: Fd, src: Fd)          // io.Copy(out, in)
    | CloseFile(fd: Fd)                   // (*os.File).Close

  /** The trace of calls shared by the driver, the user interface and the host. */
  class Trace {
    var events: seq<Event>

    constructor ()
      ensures events == []
    {
      events := [];
    }

    method Record(e: Event)
      modifies this
      ensures events == old(events) + [e]
    {
      events := events + [e];
    }
  }

  /** The QEMU driver: image-format inspection and `qemu-img` invocation. */
  class Driver {
    const trace: Trace
    /** What `GetImageFormat` answers. */
    const imageFormat: Result<string>
    /** What `QemuImg` answers (`None` for success). */
    const qemuImgError: Option<string>

    constructor (trace: Trace, imageFormat: Result<string>, qemuImgError: Option<string>)
      ensures this.trace == trace
      ensures this.imageFormat == imageFormat && this.qemuImgError == qemuImgError
    {
      this.trace := trace;
      this.imageFormat := imageFormat;
      this.qemuImgError := qemuImgError;
    }

    method GetImageFormat(path: string) returns (r: Result<string>)
      modifies trace
      ensures r == imageFormat
      ensures trace.events == old(trace.events) + [InspectImage(path)]
    {
      trace.Record(InspectImage(path));
      r := imageFormat;
    }

    method QemuImg(args: seq<string>) returns (err: Option<string>)
      modifies trace
      ensures err == qemuImgError
      ensures trace.events == old(trace.events) + [RunQemuImg(args)]
    {
      trace.Record(RunQemuImg(args));
      err := qemuImgError;
    }
  }

  /** The user-facing sink for informational and error messages. */
  class Ui {
    const trace: Trace

    constructor (trace: Trace)
      ensures this.trace == trace
    {
      this.trace := trace;
    }

    method Say(message: string)
      modifies trace
      ensures trace.events == old(trace.events) + [SayMessage(message)]
    {
      trace.Record(SayMessage(message));
    }

    method Error(message: string)
      modifies trace
      ensures trace.events == old(trace.events) + [ShowError(message)]
    {
      trace.Record(ShowError(message));
    }
  }

  /** How the host answers each kind of file call (`None` for success). Closing a
      handle opened for reading and the first close of a handle created for writing
      are answered separately; a second close of a handle always fails. */
  datatype OsAnswers = OsAnswers(
    open: Option<string>,
    create: Option<string>,
    copy: Option<string>,
    closeRead: Option<string>,
    closeWrite: Option<string>)

  /** The error of closing a handle that is already closed. */
  const FileAlreadyClosed := "file already closed"

  /** A file the host handed out a handle for, and whether that handle is closed. */
  datatype OpenedFile = OpenedFile(path: string, writable: bool, closed: bool)

  /** The host operating system: path joining and file calls. */
  class Host {
    const trace: Trace
    /** `filepath.Join` on two elements, left uninterpreted. */
    const join: (string, string) -> string
    const answers: OsAnswers
    /** Every handle handed out so far; handle `fd` names `files[fd]`. */
    var files: seq<OpenedFile>

    constructor (trace: Trace, join: (string, string) -> string, answers: OsAnswers)
      ensures this.trace == trace && this.join == join && this.answers == answers
      ensures files == []
    {
      this.trace := trace;
      this.join := join;
      this.answers := answers;
      files := [];
    }

    /** `os.Open`: on success the new handle is `fd`. */
    method Open(path: string) returns (err: Option<string>, fd: Fd)
      modifies this`files, trace
      ensures err == answers.open && fd == |old(files)|
      ensures files == old(files) + (if err.None? then [OpenedFile(path, false, false)] else [])
      ensures trace.events == old(trace.events) + [OpenFile(path)]
    {
      trace.Record(OpenFile(path));
      err, fd := answers.open, |files|;
      if err.None? {
        files := files + [OpenedFile(path, false, false)];
      }
    }

    /** `os.Create`: on success the new handle is `fd`. */
    method Create(path: string) returns (err: Option<string>, fd: Fd)
      modifies this`files, trace
      ensures err == answers.create && fd == |old(files)|
      ensures files == old(files) + (if err.None? then [OpenedFile(path, true, false)] else [])
      ensures trace.events == old(trace.events) + [CreateFile(path)]
    {
      trace.Record(CreateFile(path));
      err, fd := answers.create, |files|;
      if err.None? {
        files := files + [OpenedFile(path, true, false)];
      }
    }

    /** `io.Copy(dst, src)`. */
    method Copy(dst: Fd, src: Fd) returns (err: Option<string>)
      modifies trace
      ensures err == answers.copy
      ensures trace.events == old(trace.events) + [CopyData(dst, src)]
    {
      trace.Record(CopyData(dst, src));
      err := answers.copy;
    }

    /** `(*os.File).Close`: closing a handle a second time fails. */
    method Close(fd: Fd) returns (err: Option<string>)
      requires fd < |files|
      modifies this`files, trace
      ensures err ==
        if old(files[fd].closed) then Some(FileAlreadyClosed)
        else if old(files[fd].writable) then answers.closeWrite
        else answers.closeRead
      ensures files == old(files)[fd := old(files[fd]).(closed := true)]
      ensures trace.events == old(trace.events) + [CloseFile(fd)]
    {
      trace.Record(CloseFile(fd));
      err := if files[fd].closed then Some(FileAlreadyClosed)
        else if files[fd].writable then answers.closeWrite
        else answers.closeRead;
      files := files[fd := files[fd].(closed := true)];
    }
  }

  /** The values the pipeline keeps in its state bag. */
  datatype Value =
    | ConfigValue(config: Config)
    | DriverValue(driver: Driver)
    | UiValue(ui: Ui)
    | StringValue(text: string)
    | ErrorValue(message: string)

  /** The state bag shared by all steps of a build. */
  class StateBag {
    var entries: map<string, Value>

    constructor (entries: map<string, Value>)
      ensures this.entries == entries
    {
      this.entries := entries;
    }

    method Put(key: string, value: Value)
      modifies this
      ensures entries == old(entries)[key := value]
    {
      entries := entries[key := value];
    }
  }
}
