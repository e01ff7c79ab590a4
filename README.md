# Disk-copy step of the QEMU builder, in Dafny

This project models `stepCopyDisk`, the step of Packer's QEMU builder that prepares the
virtual machine's primary disk, and `copyFile`, its file-copy helper.

`Run` asks the driver for the on-disk format of the source image (`iso_path`). It then
takes one of three paths:

- **Copy.** The inspection succeeded and the format equals the configured output format.
  The image is copied byte for byte to `OutputDir`/`VMName`.
- **Skip.** The formats differ or inspection failed, and no owned disk is needed
  (`!DiskImage || UseBackingFile`). Nothing is done.
- **Convert.** Otherwise, `qemu-img convert -O <format> <iso_path> <path>` runs.

A failure on the copy or convert path stores a wrapped error under `"error"` and halts
the build. A successful conversion stores `VMName` under `"disk_filename"`. The format
check comes before the skip check, so a source already in the output format is copied
even when `UseBackingFile` is set or `DiskImage` is off. The model keeps that order.

Files:

- `wrappers.dfy`: `Option` and `Result` types for Go's `error` returns. An error is
  modelled by its message.
- `collaborators.dfy`: the build configuration, the state bag (a class over a
  `map<string, Value>` that `Put` updates in place) and stand-ins for the driver, the UI
  and the host OS. Each stand-in's answers are fixed when it is constructed. All three
  append every call they receive to one shared `Trace`, so the order of calls across
  them is observable. The host hands out a numbered handle for each file it opens or
  creates, and keeps the handle's path, mode and closed flag. A close gets the host's
  answer for a read handle or a write handle. A second close of the same handle fails
  with "file already closed", as Go's `*os.File` does. `filepath.Join` is the host's
  uninterpreted `join`.
- `step_copy_disk.dfy`: the step itself. It contains:
  - the pure decision `Decide`;
  - the `qemu-img` argument list;
  - the report `StepReport` (path, action, state-bag writes);
  - the calls one run makes, `StepEvents`, and the calls of one copy, `CopyCalls`;
  - the error messages and their parser;
  - the imperative `CopyFile`, `Run` and `Cleanup`, each proved against those functions.

`CopyFile` unfolds Go's deferred closes at each return, in last-in-first-out order. On
the full-success path the destination is therefore closed twice. The first close is the
explicit `out.Close()`, and its error is returned. The second is the deferred close. It
fails because the handle is already closed, and its error is dropped. The deferred
close of the source is answered too, and its error is dropped as well.

## Model

| member | source | states |
|---|---|---|
| StepCopyDisk.FirstFailure | builder/qemu/step_copy_disk.go:67-84 | the first error of calls made in order: none exactly when every call succeeded, otherwise the error of some call that all earlier calls passed |
| StepCopyDisk.CopyErrorIsFirstChecked | builder/qemu/step_copy_disk.go:68-84 | copyFile's early returns (open error, else create error, else copy error, else the error of the explicit first close of the destination) give the first failure of those four results in that order |
| StepCopyDisk.CopyFileReleasesHandles | builder/qemu/step_copy_disk.go:68-84 | copyFile starts by opening the source; a failed open is the only call; once the source is open, its handle is closed and that close is the last call; once the destination is created, its handle is closed afterwards; only handles copyFile acquired are closed; data is copied from the source handle to the destination handle, and exactly when both were acquired |
| StepCopyDisk.CopyFile | builder/qemu/step_copy_disk.go:67-85 | returns the open, create or copy error, else the answer to the explicit close of the destination handle; adds the source and destination handles, as far as they were acquired, all closed at return; makes exactly the host calls of that path, deferred closes included |
| StepCopyDisk.ParseErrorMessage | builder/qemu/step_copy_disk.go:33-54 | the copy and conversion error prefixes can be told apart: each wrapped message gives back its phase and its cause |
| StepCopyDisk.Decide | builder/qemu/step_copy_disk.go:31-50 | copy exactly when inspection succeeded with the configured format; skip exactly when it did not and `!DiskImage \|\| UseBackingFile`; convert exactly in the remaining case |
| StepCopyDisk.StepReport | builder/qemu/step_copy_disk.go:31-62 | only `"error"` and `"disk_filename"` are written; `"error"` is written exactly on Halt; Halt happens exactly when the copy or conversion that ran failed; `"disk_filename"` is written, with VMName, exactly when conversion ran and succeeded; a failed copy or conversion writes only its prefixed error; Continue off the convert path writes nothing |
| StepCopyDisk.HaltNamesFailingPhase | builder/qemu/step_copy_disk.go:32-57 | the error stored on Halt names the phase that failed (copy or conversion) and carries that phase's cause unchanged |
| StepCopyDisk.FormatMatchOverridesDiskFlags | builder/qemu/step_copy_disk.go:31-50 | a source in the output format takes the copy path, and the outcome is the same whatever DiskImage and UseBackingFile say |
| StepCopyDisk.ConversionIsAnnouncedAndRunsOnce | builder/qemu/step_copy_disk.go:41-58 | qemu-img runs exactly on the convert path, once, with `["convert", "-O", Format, iso_path, path]`, immediately after the progress message; the progress message is said exactly on the convert path |
| StepCopyDisk.HaltShowsOneError | builder/qemu/step_copy_disk.go:32-57 | an error is shown exactly when the step halts; it is the last call of the run, and its text is the error stored under `"error"` |
| StepCopyDisk.FilesTouchedOnlyOnCopyPath | builder/qemu/step_copy_disk.go:31-50 | a file is opened exactly on the copy path, and no file call of any kind happens on the skip or convert path |
| StepCopyDisk.Run | builder/qemu/step_copy_disk.go:18-63 | returns the report's action; adds exactly the report's writes to the state bag and keeps every other entry; appends to the shared trace exactly the run's calls (inspection of iso_path, then copyFile's calls on the copy path, or the progress message followed by qemu-img on the convert path, then the error message on Halt); acquires file handles only on the copy path, exactly copyFile's |
| StepCopyDisk.Cleanup | builder/qemu/step_copy_disk.go:65 | leaves the state bag unchanged |

## Left out

- File contents: `os.Open`, `os.Create`, `io.Copy` and `Close` are modelled as calls with
  fixed success or failure answers. Bytes are not modelled. So the model does not state
  that the destination is byte-identical to the source, or that re-running the copy
  gives the same bytes.
- The internals of `GetImageFormat` and of the `qemu-img` subprocess are not modelled.
  They belong to the `Driver` interface, which is not part of this model. Only their
  answers are inputs.
- Close errors other than "file already closed" are one fixed answer per handle mode
  (read or write). So the model cannot give two different first closes of write handles
  different answers. `copyFile` closes only one write handle, so this does not limit it.
- `filepath.Join` is left uninterpreted, so operating-system path rules are not modelled.
  `fmt.Sprintf("%s", VMName)` is the identity on a string and is written as `VMName`.
- `context.Context` is not modelled. It is unused by the step.
- The Go type assertions that read `config`, `driver`, `iso_path` and `ui` from the state
  bag panic when an entry is missing or has the wrong type. `Run` states this as a
  precondition (`HoldsStepInputs`) rather than as behaviour.
- The `driver` and `ui` entries are passed to `Run` as the objects the bag holds. The bag
  stores references to them, so the model does not capture aliasing beyond that.
