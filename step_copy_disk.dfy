/** The disk-copy step of the QEMU builder. It prepares the VM's primary disk by copying
    the source image when it already has the output format, by converting it with
    `qemu-img` otherwise, or by doing nothing when no owned disk is needed. The decision
    and what it leaves in the state bag are pure functions; `Run` and `CopyFile` are the
    imperative steps, proved against them. */
module StepCopyDisk {
  import opened Wrappers
  import opened Collaborators

  /** What the step tells the pipeline engine. */
  datatype StepAction = ActionContinue | ActionHalt

  /** The three paths of `Run`. */
  datatype Decision = DirectCopy | Skip | Convert

  /** The phase a fatal error came from. */
  datatype Phase = CopyPhase | ConvertPhase

  const CopyErrorPrefix := "Error copying source file: "
  const ConvertErrorPrefix := "Error creating hard drive: "
  const ProgressMessage := "Copying hard drive..."

  // ---------------------------------------------------------------------------
  // copyFile

  /** The first failure of a series of fallible calls made in order. */
  function FirstFailure(results: seq<Option<string>>): (r: Option<string>)
    ensures r.None? <==> forall i :: 0 <= i < |results| ==> results[i].None?
    ensures r.Some? ==>
      exists i :: 0 <= i < |results| && results[i] == r &&
        forall j :: 0 <= j < i ==> results[j].None?
  {
    if results == [] then None
    else if results[0].Some? then results[0]
    else
      var rest := FirstFailure(results[1..]);
      assert forall i :: 0 < i < |results| ==> results[i] == results[1..][i - 1];
      rest
  }

  /** The results `copyFile` checks, in the order it checks them: opening the source,
      creating the destination, copying, and the explicit close of the destination
      (its first close, so answered by `closeWrite`). */
  function CheckedResults(a: OsAnswers): seq<Option<string>>
  {
    [a.open, a.create, a.copy, a.closeWrite]
  }

  /** The error `copyFile` returns, as its early returns give it: the open error, else
      the create error, else the copy error, else the error of the explicit close of
      the destination, else nil. */
  function CopyError(a: OsAnswers): Option<string>
  {
    if a.open.Some? then a.open
    else if a.create.Some? then a.create
    else if a.copy.Some? then a.copy
    else a.closeWrite
  }

  /** `copyFile`'s early returns give the first failure of the results it checks. */
  lemma CopyErrorIsFirstChecked(a: OsAnswers)
    ensures CopyError(a) == FirstFailure(CheckedResults(a))
  {
    var rs := CheckedResults(a);
    assert rs[1..] == [a.create, a.copy, a.closeWrite];
    assert rs[1..][1..] == [a.copy, a.closeWrite];
    assert rs[1..][1..][1..] == [a.closeWrite];
    assert FirstFailure([a.closeWrite]) == a.closeWrite by {
      assert [a.closeWrite][1..] == [];
    }
    assert FirstFailure([a.copy, a.closeWrite]) == if a.copy.Some? then a.copy else a.closeWrite;
    assert FirstFailure(rs[1..]) == if a.create.Some? then a.create else FirstFailure([a.copy, a.closeWrite]);
  }

  /** The files `copyFile` obtains a handle for, as they stand when it returns: the
      source (for reading), then the destination (for writing), as far as the opens
      succeed, every one of them closed. */
  function CopyOpened(src: string, dst: string, a: OsAnswers): seq<OpenedFile>
  {
    if a.open.Some? then []
    else if a.create.Some? then [OpenedFile(src, false, true)]
    else [OpenedFile(src, false, true), OpenedFile(dst, true, true)]
  }

  /** The calls `copyFile` makes when the host's next handle is `base` (so the source
      gets `base` and the destination `base + 1`), deferred closes included: each handle
      acquired is closed when it returns, the most recently acquired first, and the
      destination is closed once explicitly and once more by its deferred close. */
  function CopyCalls(src: string, dst: string, a: OsAnswers, base: nat): seq<Event>
  {
    var inFd, outFd := base, base + 1;
    if a.open.Some? then [OpenFile(src)]
    else if a.create.Some? then [OpenFile(src), CreateFile(dst), CloseFile(inFd)]
    else if a.copy.Some? then
      [OpenFile(src), CreateFile(dst), CopyData(outFd, inFd), CloseFile(outFd), CloseFile(inFd)]
    else
      [OpenFile(src), CreateFile(dst), CopyData(outFd, inFd), CloseFile(outFd), CloseFile(outFd), CloseFile(inFd)]
  }

  /** Some call after position `i` closes handle `fd`. */
  predicate ClosedAfter(calls: seq<Event>, i: nat, fd: Fd)
  {
    exists j :: i < j < |calls| && calls[j] == CloseFile(fd)
  }

  /** Every handle `copyFile` acquires is released before it returns, the source last,
      and no other handle is closed; nothing follows a failed open; data is copied,
      from the source handle to the destination handle, only when both are held. */
  lemma CopyFileReleasesHandles(src: string, dst: string, a: OsAnswers, base: nat)
    ensures var calls := CopyCalls(src, dst, a, base);
      var acquired := |CopyOpened(src, dst, a)|;
      && calls[0] == OpenFile(src)
      && (a.open.Some? ==> calls == [OpenFile(src)])
      && (a.open.None? ==> ClosedAfter(calls, 0, base) && calls[|calls| - 1] == CloseFile(base))
      && (a.open.None? ==> calls[1] == CreateFile(dst))
      && (a.open.None? && a.create.None? ==> ClosedAfter(calls, 1, base + 1))
      && (forall i :: 0 <= i < |calls| && calls[i].CloseFile? ==> base <= calls[i].fd < base + acquired)
      && (forall i :: 0 <= i < |calls| && calls[i].CopyData? ==> calls[i] == CopyData(base + 1, base))
      && ((exists i :: 0 <= i < |calls| && calls[i].CopyData?) <==> a.open.None? && a.create.None?)
  {
    var calls := CopyCalls(src, dst, a, base);
    if a.open.None? {
      assert calls[|calls| - 1] == CloseFile(base);
      if a.create.None? {
        assert calls[3] == CloseFile(base + 1);
        assert calls[2].CopyData?;
      }
    }
  }

  /** `copyFile(src, dst)`: returns the first error among opening the source,
      creating the destination, copying and the explicit close of the destination;
      deferred closes run on every return and their errors are dropped. */
  method CopyFile(host: Host, src: string, dst: string) returns (err: Option<string>)
    modifies host, host.trace
    ensures err == CopyError(host.answers)
    ensures host.files == old(host.files) + CopyOpened(src, dst, host.answers)
    ensures host.trace.events == old(host.trace.events) + CopyCalls(src, dst, host.answers, |old(host.files)|)
  {
    ghost var files, events := host.files, host.trace.events;
    var inFd, outFd: Fd;
    err, inFd := host.Open(src);
    if err.Some? {
      return;
    }
    // defer in.Close()
    err, outFd := host.Create(dst);
    if err.Some? {
      var ignored := host.Close(inFd);
      assert host.files == files + [OpenedFile(src, false, true)];
      AppendAssociates(events, [OpenFile(src)], [CreateFile(dst)]);
      AppendAssociates(events, [OpenFile(src), CreateFile(dst)], [CloseFile(inFd)]);
      return;
    }
    // defer out.Close()
    ghost var held := files + [OpenedFile(src, false, false), OpenedFile(dst, true, false)];
    assert host.files == held;
    AppendAssociates(events, [OpenFile(src)], [CreateFile(dst)]);
    ghost var done := [OpenFile(src), CreateFile(dst), CopyData(outFd, inFd)];
    err := host.Copy(outFd, inFd);
    AppendAssociates(events, [OpenFile(src), CreateFile(dst)], [CopyData(outFd, inFd)]);
    assert host.trace.events == events + done;
    if err.Some? {
      var ignored := host.Close(outFd);
      ignored := host.Close(inFd);
      assert host.files == files + [OpenedFile(src, false, true), OpenedFile(dst, true, true)];
      AppendAssociates(events, done, [CloseFile(outFd)]);
      AppendAssociates(events, done + [CloseFile(outFd)], [CloseFile(inFd)]);
      return;
    }
    err := host.Close(outFd);
    var ignored := host.Close(outFd);
    ignored := host.Close(inFd);
    assert host.files == files + [OpenedFile(src, false, true), OpenedFile(dst, true, true)];
    AppendAssociates(events, done, [CloseFile(outFd)]);
    AppendAssociates(events, done + [CloseFile(outFd)], [CloseFile(outFd)]);
    AppendAssociates(events, done + [CloseFile(outFd), CloseFile(outFd)], [CloseFile(inFd)]);
  }

  // ---------------------------------------------------------------------------
  // Error messages

  /** The message of the error `Run` stores when a phase fails with `cause`. */
  function ErrorMessage(phase: Phase, cause: string): string
  {
    match phase
    case CopyPhase => CopyErrorPrefix + cause
    case ConvertPhase => ConvertErrorPrefix + cause
  }

  /** Reads back which phase an error message names and the cause it wraps. */
  function ParseError(message: string): Option<(Phase, string)>
  {
    if CopyErrorPrefix <= message then Some((CopyPhase, message[|CopyErrorPrefix|..]))
    else if ConvertErrorPrefix <= message then Some((ConvertPhase, message[|ConvertErrorPrefix|..]))
    else None
  }

  /** The two prefixes tell the phases apart: a stored error names its phase and its
      cause unambiguously. */
  lemma ParseErrorMessage(phase: Phase, cause: string)
    ensures ParseError(ErrorMessage(phase, cause)) == Some((phase, cause))
  {
    var m := ErrorMessage(phase, cause);
    match phase
    case CopyPhase =>
      assert m[..|CopyErrorPrefix|] == CopyErrorPrefix;
      assert m[|CopyErrorPrefix|..] == cause;
    case ConvertPhase =>
      assert m[7] == 'r' && CopyErrorPrefix[7] == 'o';
      assert !(CopyErrorPrefix <= m);
      assert m[..|ConvertErrorPrefix|] == ConvertErrorPrefix;
      assert m[|ConvertErrorPrefix|..] == cause;
  }

  // ---------------------------------------------------------------------------
  // Run

  /** The path `Run` takes, given the inspected format of the source image. */
  function Decide(config: Config, inspected: Result<string>): (d: Decision)
    ensures d == DirectCopy <==> inspected == Ok(config.format)
    ensures d == Skip <==> inspected != Ok(config.format) && (!config.diskImage || config.useBackingFile)
    ensures d == Convert <==> inspected != Ok(config.format) && config.diskImage && !config.useBackingFile
  {
    if inspected.Ok? && inspected.value == config.format then DirectCopy
    else if !config.diskImage || config.useBackingFile then Skip
    else Convert
  }

  /** The argument list of the conversion `qemu-img` is asked to run. */
  function ConvertCommand(config: Config, isoPath: string, path: string): seq<string>
  {
    ["convert", "-O", config.format, isoPath, path]
  }

  /** What one run of the step decides and reports: the path, the action and the
      entries it writes to the state bag. */
  datatype Report = Report(decision: Decision, action: StepAction, writes: map<string, Value>)

  /** The report of `Run`, given what format inspection, `copyFile` and `qemu-img`
      answer (the answers of calls the path does not make are ignored). */
  function StepReport(config: Config, inspected: Result<string>, copyErr: Option<string>, convertErr: Option<string>): (r: Report)
    ensures r.decision == Decide(config, inspected)
    ensures r.writes.Keys <= {"error", "disk_filename"}
    ensures r.action == ActionHalt <==> "error" in r.writes
    ensures r.action == ActionHalt <==>
      (r.decision == DirectCopy && copyErr.Some?) || (r.decision == Convert && convertErr.Some?)
    ensures "disk_filename" in r.writes <==> r.decision == Convert && convertErr.None?
    ensures "disk_filename" in r.writes ==> r.writes["disk_filename"] == StringValue(config.vmName)
    ensures r.decision == DirectCopy && copyErr.Some? ==>
      r.writes == map["error" := ErrorValue(CopyErrorPrefix + copyErr.value)]
    ensures r.decision == Convert && convertErr.Some? ==>
      r.writes == map["error" := ErrorValue(ConvertErrorPrefix + convertErr.value)]
    ensures r.action == ActionContinue && r.decision != Convert ==> r.writes == map[]
  {
    var decision := Decide(config, inspected);
    match decision
    case DirectCopy =>
      if copyErr.Some? then
        Report(decision, ActionHalt, map["error" := ErrorValue(ErrorMessage(CopyPhase, copyErr.value))])
      else
        Report(decision, ActionContinue, map[])
    case Skip =>
      Report(decision, ActionContinue, map[])
    case Convert =>
      if convertErr.Some? then
        Report(decision, ActionHalt, map["error" := ErrorValue(ErrorMessage(ConvertPhase, convertErr.value))])
      else
        Report(decision, ActionContinue, map["disk_filename" := StringValue(config.vmName)])
  }

  /** The error a halted run stores names the phase that failed and carries that
      phase's cause unchanged. */
  lemma HaltNamesFailingPhase(config: Config, inspected: Result<string>, copyErr: Option<string>, convertErr: Option<string>)
    requires StepReport(config, inspected, copyErr, convertErr).action == ActionHalt
    ensures var r := StepReport(config, inspected, copyErr, convertErr);
      && r.writes["error"].ErrorValue?
      && ParseError(r.writes["error"].message) ==
           if r.decision == DirectCopy then Some((CopyPhase, copyErr.value))
           else Some((ConvertPhase, convertErr.value))
  {
    var r := StepReport(config, inspected, copyErr, convertErr);
    if r.decision == DirectCopy {
      ParseErrorMessage(CopyPhase, copyErr.value);
    } else {
      ParseErrorMessage(ConvertPhase, convertErr.value);
    }
  }

  /** A source already in the output format is copied whatever `DiskImage` and
      `UseBackingFile` say: the format check comes before the skip check. */
  lemma FormatMatchOverridesDiskFlags(config: Config, diskImage: bool, useBackingFile: bool, copyErr: Option<string>, convertErr: Option<string>)
    ensures var other := config.(diskImage := diskImage, useBackingFile := useBackingFile);
      && StepReport(other, Ok(config.format), copyErr, convertErr).decision == DirectCopy
      && StepReport(other, Ok(config.format), copyErr, convertErr) == StepReport(config, Ok(config.format), copyErr, convertErr)
  {
  }

  /** The calls one run makes, in order, when the host's next handle is `base`:
      inspection, then the copy's file calls or the progress message and the
      conversion, then the error message if the run halts. */
  function StepEvents(config: Config, isoPath: string, path: string, inspected: Result<string>,
                      convertErr: Option<string>, a: OsAnswers, base: nat): seq<Event>
  {
    var r := StepReport(config, inspected, CopyError(a), convertErr);
    [InspectImage(isoPath)]
    + (match r.decision
       case DirectCopy => CopyCalls(isoPath, path, a, base)
       case Skip => []
       case Convert => [SayMessage(ProgressMessage), RunQemuImg(ConvertCommand(config, isoPath, path))])
    + (if r.action == ActionHalt then [ShowError(r.writes["error"].message)] else [])
  }

  /** `qemu-img` runs at most once, exactly on the convert path, with the arguments
      `convert -O <format> <source> <destination>`, and right after the progress
      message; the progress message is said only there. */
  lemma ConversionIsAnnouncedAndRunsOnce(config: Config, isoPath: string, path: string, inspected: Result<string>,
                                         convertErr: Option<string>, a: OsAnswers, base: nat)
    ensures var ev := StepEvents(config, isoPath, path, inspected, convertErr, a, base);
      && ((exists i :: 0 <= i < |ev| && ev[i].RunQemuImg?) <==> Decide(config, inspected) == Convert)
      && ((exists i :: 0 <= i < |ev| && ev[i].SayMessage?) <==> Decide(config, inspected) == Convert)
      && (forall i :: 0 <= i < |ev| && ev[i].RunQemuImg? ==>
            && ev[i].args == ["convert", "-O", config.format, isoPath, path]
            && 0 < i && ev[i - 1] == SayMessage(ProgressMessage)
            && (forall j :: 0 <= j < |ev| && ev[j].RunQemuImg? ==> j == i))
  {
    var ev := StepEvents(config, isoPath, path, inspected, convertErr, a, base);
    var r := StepReport(config, inspected, CopyError(a), convertErr);
    var tail := if r.action == ActionHalt then [ShowError(r.writes["error"].message)] else [];
    match r.decision
    case DirectCopy =>
      var calls := CopyCalls(isoPath, path, a, base);
      assert ev == [InspectImage(isoPath)] + calls + tail;
      assert forall i :: 0 <= i < |ev| ==> ev[i] == InspectImage(isoPath) || ev[i] in calls || ev[i] in tail;
    case Skip =>
      assert ev == [InspectImage(isoPath)];
    case Convert =>
      assert ev == [InspectImage(isoPath), SayMessage(ProgressMessage), RunQemuImg(ConvertCommand(config, isoPath, path))] + tail;
      assert ev[2].RunQemuImg? && ev[1].SayMessage?;
  }

  /** A run shows an error message exactly when it halts: one message, the last call,
      and the same text it stores under `"error"`. */
  lemma HaltShowsOneError(config: Config, isoPath: string, path: string, inspected: Result<string>,
                          convertErr: Option<string>, a: OsAnswers, base: nat)
    ensures var ev := StepEvents(config, isoPath, path, inspected, convertErr, a, base);
      var r := StepReport(config, inspected, CopyError(a), convertErr);
      && ((exists i :: 0 <= i < |ev| && ev[i].ShowError?) <==> r.action == ActionHalt)
      && (forall i :: 0 <= i < |ev| && ev[i].ShowError? ==>
            i == |ev| - 1 && "error" in r.writes && r.writes["error"] == ErrorValue(ev[i].message))
  {
    var ev := StepEvents(config, isoPath, path, inspected, convertErr, a, base);
    var r := StepReport(config, inspected, CopyError(a), convertErr);
    var tail := if r.action == ActionHalt then [ShowError(r.writes["error"].message)] else [];
    var middle := match r.decision
       case DirectCopy => CopyCalls(isoPath, path, a, base)
       case Skip => []
       case Convert => [SayMessage(ProgressMessage), RunQemuImg(ConvertCommand(config, isoPath, path))];
    assert ev == [InspectImage(isoPath)] + middle + tail;
    assert forall e :: e in middle ==> !e.ShowError?;
    assert forall i :: 0 <= i < 1 + |middle| ==> ev[i] == ([InspectImage(isoPath)] + middle)[i];
    if r.action == ActionHalt {
      assert ev[|ev| - 1].ShowError?;
    }
  }

  /** Files are touched only on the copy path, and always there. */
  lemma FilesTouchedOnlyOnCopyPath(config: Config, isoPath: string, path: string, inspected: Result<string>,
                                   convertErr: Option<string>, a: OsAnswers, base: nat)
    ensures var ev := StepEvents(config, isoPath, path, inspected, convertErr, a, base);
      (exists i :: 0 <= i < |ev| && ev[i].OpenFile?) <==> Decide(config, inspected) == DirectCopy
    ensures var ev := StepEvents(config, isoPath, path, inspected, convertErr, a, base);
      forall i :: 0 <= i < |ev| && IsFileCall(ev[i]) ==> Decide(config, inspected) == DirectCopy
  {
    var ev := StepEvents(config, isoPath, path, inspected, convertErr, a, base);
    var r := StepReport(config, inspected, CopyError(a), convertErr);
    var tail := if r.action == ActionHalt then [ShowError(r.writes["error"].message)] else [];
    match r.decision
    case DirectCopy =>
      assert ev[1] == OpenFile(isoPath);
    case Skip =>
      assert ev == [InspectImage(isoPath)];
    case Convert =>
      assert ev == [InspectImage(isoPath), SayMessage(ProgressMessage), RunQemuImg(ConvertCommand(config, isoPath, path))] + tail;
  }

  /** A call into the host's file API. */
  predicate IsFileCall(e: Event)
  {
    e.OpenFile? || e.CreateFile? || e.CopyData? || e.CloseFile?
  }

  /** The state-bag entries `Run` relies on: the configuration, this driver, the
      source image path and this user interface. */
  predicate HoldsStepInputs(entries: map<string, Value>, driver: Driver, ui: Ui)
  {
    && "config" in entries && entries["config"].ConfigValue?
    && "driver" in entries && entries["driver"] == DriverValue(driver)
    && "iso_path" in entries && entries["iso_path"].StringValue?
    && "ui" in entries && entries["ui"] == UiValue(ui)
  }

  /** `stepCopyDisk.Run`. The driver, the user interface and the host record into one
      trace. */
  method Run(state: StateBag, driver: Driver, ui: Ui, host: Host) returns (action: StepAction)
    requires HoldsStepInputs(state.entries, driver, ui)
    requires driver.trace == host.trace && ui.trace == host.trace
    modifies state, host, host.trace
    ensures
      var config := old(state.entries)["config"].config;
      var isoPath := old(state.entries)["iso_path"].text;
      var path := host.join(config.outputDir, config.vmName);
      var base := |old(host.files)|;
      var r := StepReport(config, driver.imageFormat, CopyError(host.answers), driver.qemuImgError);
      && action == r.action
      && state.entries == old(state.entries) + r.writes
      && host.trace.events == old(host.trace.events) +
           StepEvents(config, isoPath, path, driver.imageFormat, driver.qemuImgError, host.answers, base)
      && host.files == old(host.files) +
           (if r.decision == DirectCopy then CopyOpened(isoPath, path, host.answers) else [])
  {
    var config := state.entries["config"].config;
    var isoPath := state.entries["iso_path"].text;
    var path := host.join(config.outputDir, config.vmName);
    var name := config.vmName;
    ghost var base := |host.files|;
    ghost var events := host.trace.events;
    ghost var r := StepReport(config, driver.imageFormat, CopyError(host.answers), driver.qemuImgError);
    ghost var steps := StepEvents(config, isoPath, path, driver.imageFormat, driver.qemuImgError, host.answers, base);

    var format := driver.GetImageFormat(isoPath);
    if format.Ok? && format.value == config.format {
      var err := CopyFile(host, isoPath, path);
      ghost var done := [InspectImage(isoPath)] + CopyCalls(isoPath, path, host.answers, base);
      AppendAssociates(events, [InspectImage(isoPath)], CopyCalls(isoPath, path, host.answers, base));
      assert host.trace.events == events + done;
      if err.Some? {
        var message := ErrorMessage(CopyPhase, err.value);
        assert r == Report(DirectCopy, ActionHalt, map["error" := ErrorValue(message)]);
        assert steps == done + [ShowError(message)];
        state.Put("error", ErrorValue(message));
        ui.Error(message);
        AppendAssociates(events, done, [ShowError(message)]);
        return ActionHalt;
      }
      assert r == Report(DirectCopy, ActionContinue, map[]);
      assert steps == done + [];
      return ActionContinue;
    }

    var command := ConvertCommand(config, isoPath, path);

    if !config.diskImage || config.useBackingFile {
      assert r == Report(Skip, ActionContinue, map[]);
      assert steps == [InspectImage(isoPath)] + [] + [];
      return ActionContinue;
    }

    ConvertPathSteps(config, isoPath, path, driver.imageFormat, driver.qemuImgError, host.answers, base);
    ui.Say(ProgressMessage);
    AppendAssociates(events, [InspectImage(isoPath)], [SayMessage(ProgressMessage)]);
    var err := driver.QemuImg(command);
    ghost var done := [InspectImage(isoPath)] + [SayMessage(ProgressMessage)] + [RunQemuImg(command)];
    AppendAssociates(events, [InspectImage(isoPath)] + [SayMessage(ProgressMessage)], [RunQemuImg(command)]);
    assert host.trace.events == events + done;
    if err.Some? {
      var message := ErrorMessage(ConvertPhase, err.value);
      state.Put("error", ErrorValue(message));
      ui.Error(message);
      AppendAssociates(events, done, [ShowError(message)]);
      return ActionHalt;
    }

    state.Put("disk_filename", StringValue(name));
    return ActionContinue;
  }

  /** What a run that takes the convert path reports and calls. */
  lemma ConvertPathSteps(config: Config, isoPath: string, path: string, inspected: Result<string>,
                         convertErr: Option<string>, a: OsAnswers, base: nat)
    requires Decide(config, inspected) == Convert
    ensures var r := StepReport(config, inspected, CopyError(a), convertErr);
      && r == (if convertErr.Some?
               then Report(Convert, ActionHalt, map["error" := ErrorValue(ErrorMessage(ConvertPhase, convertErr.value))])
               else Report(Convert, ActionContinue, map["disk_filename" := StringValue(config.vmName)]))
      && StepEvents(config, isoPath, path, inspected, convertErr, a, base) ==
           [InspectImage(isoPath)] + [SayMessage(ProgressMessage)] + [RunQemuImg(ConvertCommand(config, isoPath, path))]
           + (if convertErr.Some? then [ShowError(ErrorMessage(ConvertPhase, convertErr.value))] else [])
  {
  }

  lemma AppendAssociates<T>(a: seq<T>, b: seq<T>, c: seq<T>)
    ensures a + b + c == a + (b + c)
  {
  }

  /** `stepCopyDisk.Cleanup`: releases nothing and leaves the state bag as it was. */
  method Cleanup(state: StateBag)
    ensures state.entries == old(state.entries)
  {
  }
}
