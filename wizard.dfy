/** The state the wizard's pages keep between Qt events: the two globals (the current drive
    list and the selected drive), the USB page's polling timer and the flags of the
    download, write and admin pages, with the page handlers that change them. */
module Wizard {
  import opened Wrappers
  import opened Device
  import opened Pages

  /** qint64 */
  type int64 = x: int | -0x8000_0000_0000_0000 <= x < 0x8000_0000_0000_0000

  /** int, the argument type of QProgressBar::setRange and setValue */
  type int32 = x: int | -0x8000_0000 <= x < 0x8000_0000

  /** The implicit qint64 -> int conversion when a byte count reaches the progress bar:
      two's complement truncation to the low 32 bits. */
  function Int32Of(x: int64): (r: int32)
    ensures -0x8000_0000 <= x < 0x8000_0000 ==> r == x
    ensures (x - r) % 0x1_0000_0000 == 0
  {
    var m := x % 0x1_0000_0000;
    if m < 0x8000_0000 then m else m - 0x1_0000_0000
  }

  const PollIntervalMs: nat := 1000
  const ImagePath: string := "chromiumos_image.bin"

  /** What the foreign calls and the widgets report when a handler runs. */
  datatype Environment = Environment(
    devices: DeviceGuyList,           // GetDeviceList()
    elevated: bool,                   // IsCurrentProcessElevated()
    checkedDevice: Option<uint32>,    // index of the checked device radio button, if any
    checkedBitness: Option<Bitness>)  // checked button of the image page, if any

  /** A disk write handed to a DiskWriteThread: the drive and the image file. */
  datatype WriteJob = WriteJob(drive: DeviceGuy, imagePath: string)

  /** Every field the handlers read or write. */
  datatype WizardState = WizardState(
    current: PageId,                  // the page on screen
    startId: PageId,                  // QWizard::startId
    finishButtons: bool,              // Finish and "Make Another USB" shown instead of Next
    isAdmin: bool,                    // AdminCheckPage::is_admin
    url: string,                      // DownloadProgressPage::url
    downloadFinished: bool,           // DownloadProgressPage::download_finished
    rangeSet: bool,                   // DownloadProgressPage::range_set
    progressMaximum: int32,           // maximum of the download page's progress bar
    progressValue: int32,             // value of the download page's progress bar
    timerRunning: bool,               // UsbInsertPage::tim is active
    timerInterval: nat,               // its interval in milliseconds
    drivelist: Option<DeviceGuyList>, // global drivelist (None is NULL)
    selectedDrive: Option<DeviceGuy>, // global selected_drive (None is NULL)
    writeFinished: bool,              // WriteOperationPage::writeFinished
    writesLaunched: seq<WriteJob>,    // disk writes started so far, oldest first
    nextEnabled: bool)                // the Next button is enabled, as QWizard last refreshed it

  /** DeviceGuyList_getByIndex(drivelist, index). The C function is not part of this model;
      it is taken to look the index up as a device number, the way findDevice does, with
      NULL for a NULL list or no match. */
  function GetByIndex(list: Option<DeviceGuyList>, index: uint32): (r: Option<DeviceGuy>)
    ensures r.Some? ==> list.Some? && r.value in list.value && r.value.deviceNum == index
    ensures r.None? <==> list.None? || FindDevice(list.value, index).Failure?
  {
    match list
    case None => None
    case Some(l) => match FindDevice(l, index)
      case Success(d) => Some(d)
      case Failure(_) => None
  }

  /** The write the page starts on entry: one job when a drive is selected, none otherwise. */
  function WriteJobs(drive: Option<DeviceGuy>): seq<WriteJob> {
    if drive.Some? then [WriteJob(drive.value, ImagePath)] else []
  }

  /** The facts about the pages' own state that hold between any two handlers, and also while
      a page is being initialised, before QWizard refreshes its buttons. */
  ghost predicate PagesInvariant(s: WizardState) {
    // a drive list, when there is one, is never empty
    && (s.drivelist.Some? ==> s.drivelist.value != [])
    // the timer polls only on the USB page while no drive has been seen
    && (s.timerRunning ==> s.current == UsbInsert && s.drivelist.None? && s.timerInterval == PollIntervalMs)
    // every page after the USB page has a drive list
    && (Id(s.current) > Id(UsbInsert) ==> s.drivelist.Some?)
    // the write page is never reached before the download finished
    && (s.current == WriteOperation ==> s.downloadFinished)
    // the finish buttons only appear on the write page
    && (s.finishButtons ==> s.current == WriteOperation)
  }

  /** The Next button is enabled exactly when the current page is complete, except on the
      download page: markComplete does not emit completeChanged, and the completeChanged of
      onUnzipFinished is followed at once by next(), so the download page's Next button is
      never enabled while the user could click it. */
  ghost predicate ButtonInvariant(s: WizardState) {
    s.nextEnabled <==> Complete(s, s.current) && s.current != DownloadProgress
  }

  /** The facts that hold between any two handlers. */
  ghost predicate Invariant(s: WizardState) {
    PagesInvariant(s) && ButtonInvariant(s)
  }

  /** isComplete of each page; pages that do not override it are always complete. */
  function Complete(s: WizardState, p: PageId): bool {
    match p
    case AdminCheck => s.isAdmin
    case ImageSelect => true
    case UsbInsert => s.drivelist.Some?
    case DeviceSelect => true
    case DownloadProgress => s.downloadFinished
    case WriteOperation => s.writeFinished
  }

  /** UsbInsertPage::getDriveList: keep a non-empty enumeration and stop polling, or drop an
      empty one and (re)start the timer at 1000 ms. */
  function Polled(s: WizardState, devices: DeviceGuyList): WizardState {
    if devices == [] then s.(drivelist := None, timerRunning := true, timerInterval := PollIntervalMs)
    else Refreshed(s.(drivelist := Some(devices), timerRunning := false))  // showDriveList emits completeChanged
  }

  /** QWizard's refresh of the Next button from isComplete of the current page, run when the
      page emits completeChanged and after a page has been entered. */
  function Refreshed(s: WizardState): WizardState {
    s.(nextEnabled := Complete(s, s.current))
  }

  /** initializePage of the current page. */
  function Initialized(s: WizardState, env: Environment): WizardState {
    match s.current
    // showIsAdmin emits completeChanged, showIsNotAdmin does not
    case AdminCheck => if env.elevated then Refreshed(s.(isAdmin := true)) else s.(isAdmin := false)
    case ImageSelect => s
    // a fresh, inactive timer; the old list is discarded before the new enumeration
    case UsbInsert => Polled(s.(drivelist := None, timerRunning := false, timerInterval := 0), env.devices)
    case DeviceSelect => s
    case DownloadProgress => s.(url := GetUrl(env.checkedBitness))
    case WriteOperation => s.(writeFinished := false, writesLaunched := s.writesLaunched + WriteJobs(s.selectedDrive))
  }

  /** QWizard's switch to a page: its initializePage, then the refresh of the buttons. */
  function Entered(s: WizardState, env: Environment): WizardState {
    Refreshed(Initialized(s, env))
  }

  /** validatePage of the current page: the new state, or None when the page refuses. */
  function Validated(s: WizardState, env: Environment): Option<WizardState> {
    match s.current
    case DeviceSelect =>
      if env.checkedDevice.None? then None
      else Some(s.(selectedDrive := GetByIndex(s.drivelist, env.checkedDevice.value)))
    case WriteOperation => if s.writeFinished then Some(s) else None
    case _ => Some(s)
  }

  /** QWizard::next: validate the current page, move to its nextId and initialise that page.
      The second component says whether the wizard moved. */
  function Advanced(s: WizardState, env: Environment): (WizardState, bool) {
    match Validated(s, env)
    case None => (s, false)
    case Some(v) =>
      match NextId(v.current, v.downloadFinished)
      case None => (v, false)
      case Some(n) => (Entered(v.(current := n), env), true)
  }

  /** A click on Next: nothing while the button is greyed out. */
  function Clicked(s: WizardState, env: Environment): (WizardState, bool) {
    if s.nextEnabled then Advanced(s, env) else (s, false)
  }

  /** GondarWizard::handleMakeAnother: show the usual buttons, set the start id to
      usbInsertPage.nextId() - 1 (QWizard::setStartId ignores an id with no page) and restart
      there, which initialises the start page. */
  function MadeAnother(s: WizardState, env: Environment): WizardState {
    var start := match PageOf(MakeAnotherStartId()) case Some(p) => p case None => s.startId;
    Entered(s.(finishButtons := false, startId := start, current := start), env)
  }

  /** DownloadProgressPage::downloadProgress: the range is taken from the first event only. */
  function Progressed(s: WizardState, sofar: int64, total: int64): WizardState {
    s.(rangeSet := true,
       progressMaximum := if s.rangeSet then s.progressMaximum else Int32Of(total),
       progressValue := Int32Of(sofar))
  }

  /** A run of progress events, oldest first; each is (sofar, total). */
  function ProgressedAll(s: WizardState, events: seq<(int64, int64)>): WizardState
    decreases |events|
  {
    if events == [] then s
    else ProgressedAll(Progressed(s, events[0].0, events[0].1), events[1..])
  }

  /** However many progress events arrive, the bar's maximum is that of the first event and
      its value that of the last; nothing else changes. */
  lemma {:induction false} ProgressRangeFromFirstEvent(s: WizardState, events: seq<(int64, int64)>)
    requires !s.rangeSet && events != []
    ensures var t := ProgressedAll(s, events);
      && t.rangeSet
      && t.progressMaximum == Int32Of(events[0].1)
      && t.progressValue == Int32Of(events[|events| - 1].0)
      && t == s.(rangeSet := true, progressMaximum := t.progressMaximum, progressValue := t.progressValue)
    decreases |events|
  {
    var s1 := Progressed(s, events[0].0, events[0].1);
    if |events| > 1 {
      ProgressValueFromLastEvent(s1, events[1..]);
    }
  }

  lemma {:induction false} ProgressValueFromLastEvent(s: WizardState, events: seq<(int64, int64)>)
    requires s.rangeSet && events != []
    ensures ProgressedAll(s, events) == s.(progressValue := Int32Of(events[|events| - 1].0))
    decreases |events|
  {
    var s1 := Progressed(s, events[0].0, events[0].1);
    if |events| > 1 {
      ProgressValueFromLastEvent(s1, events[1..]);
    }
  }

  /** The USB page is complete exactly when the latest enumeration found a device, and the
      timer runs exactly when it found none. */
  lemma PolledCompleteIffDevices(s: WizardState, devices: DeviceGuyList)
    ensures Complete(Polled(s, devices), UsbInsert) <==> devices != []
    ensures Polled(s, devices).timerRunning <==> devices == []
    ensures Polled(s, devices).drivelist == (if devices == [] then None else Some(devices))
  {
  }

  /** Validation never changes the page, the download flag or the writes. */
  lemma ValidatedKeepsPage(s: WizardState, env: Environment)
    ensures Validated(s, env).Some? ==>
      var v := Validated(s, env).value;
      v.current == s.current && v.downloadFinished == s.downloadFinished && v.writesLaunched == s.writesLaunched
  {
  }

  /** Initialising a page never changes the page or the download flag, and starts a write
      only on the write page, with the selected drive. */
  lemma InitializedKeepsPage(s: WizardState, env: Environment)
    ensures var t := Initialized(s, env);
      && t.current == s.current && t.downloadFinished == s.downloadFinished
      && t.selectedDrive == s.selectedDrive
      && t.writesLaunched == s.writesLaunched + (if s.current == WriteOperation then WriteJobs(s.selectedDrive) else [])
      && (s.current == WriteOperation ==> !t.writeFinished)
  {
  }

  /** Navigation only moves forward, to the page nextId names, and never touches the
      download flag. */
  lemma AdvancedMovesForward(s: WizardState, env: Environment)
    ensures var (t, moved) := Advanced(s, env);
      && (moved ==> Id(s.current) < Id(t.current))
      && (moved ==> Some(t.current) == NextId(s.current, s.downloadFinished))
      && (!moved ==> t.current == s.current)
      && t.downloadFinished == s.downloadFinished
  {
    ValidatedKeepsPage(s, env);
    var v := Validated(s, env);
    if v.Some? {
      var n := NextId(v.value.current, v.value.downloadFinished);
      if n.Some? {
        InitializedKeepsPage(v.value.(current := n.value), env);
      }
    }
  }

  /** The device page refuses to go on without a checked button and leaves the state alone;
      with one, it records the looked-up drive and moves on. */
  lemma DeviceSelectValidation(s: WizardState, env: Environment)
    requires s.current == DeviceSelect
    ensures env.checkedDevice.None? ==> Advanced(s, env) == (s, false)
    ensures env.checkedDevice.Some? ==>
      Advanced(s, env).1 &&
      Advanced(s, env).0.selectedDrive == GetByIndex(s.drivelist, env.checkedDevice.value)
  {
  }

  /** A disk write is started only on entry to the write page and only with a selected
      drive, which is the drive it writes. */
  lemma WriteStartsOnlyWithDrive(s: WizardState, env: Environment)
    ensures var t := Advanced(s, env).0;
      && (t.writesLaunched == s.writesLaunched ||
          (t.current == WriteOperation && t.selectedDrive.Some? &&
           t.writesLaunched == s.writesLaunched + [WriteJob(t.selectedDrive.value, ImagePath)]))
      && (t.writesLaunched != s.writesLaunched ==> !t.writeFinished)
  {
    ValidatedKeepsPage(s, env);
    var v := Validated(s, env);
    if v.Some? {
      var n := NextId(v.value.current, v.value.downloadFinished);
      if n.Some? {
        InitializedKeepsPage(v.value.(current := n.value), env);
      }
    }
  }

  /** Every transition keeps the invariant. */
  lemma AdvancedKeepsInvariant(s: WizardState, env: Environment)
    requires Invariant(s) && Complete(s, s.current)
    ensures Invariant(Advanced(s, env).0)
  {
    var v := Validated(s, env);
    if v.Some? {
      ValidatedKeepsPage(s, env);
      var n := NextId(v.value.current, v.value.downloadFinished);
      if n.Some? {
        var u := v.value.(current := n.value);
        assert PagesInvariant(u);
        InitializedKeepsInvariant(u, env);
      }
    }
  }

  /** Initialising the page just entered keeps the pages' invariant, and the refresh that
      follows makes the button agree with it. */
  lemma InitializedKeepsInvariant(s: WizardState, env: Environment)
    requires PagesInvariant(s) && (s.current == UsbInsert ==> !s.timerRunning)
    requires s.current == DownloadProgress ==> !s.downloadFinished
    ensures PagesInvariant(Initialized(s, env))
    ensures Invariant(Entered(s, env))
  {
  }

  /** Next works only on a complete page, and never while the image is downloaded or
      extracted: the download page is left only by onUnzipFinished. */
  lemma ClickedOnlyWhenComplete(s: WizardState, env: Environment)
    requires Invariant(s)
    ensures Clicked(s, env).1 ==> Complete(s, s.current)
    ensures s.current == DownloadProgress ==> Clicked(s, env) == (s, false)
  {
  }

  /** "Make Another USB" restarts on the USB page with a fresh enumeration, and keeps the
      download flag and the previously selected drive. */
  lemma MadeAnotherRestartsAtUsbInsert(s: WizardState, env: Environment)
    ensures var t := MadeAnother(s, env);
      && t.current == UsbInsert && t.startId == UsbInsert && !t.finishButtons
      && t.drivelist == (if env.devices == [] then None else Some(env.devices))
      && t.downloadFinished == s.downloadFinished
      && t.selectedDrive == s.selectedDrive
  {
  }

  /** Because nothing resets download_finished, a second run after "Make Another USB" goes
      from the device page straight to the write page: the download is skipped. */
  lemma SecondRunSkipsDownload(s: WizardState, env: Environment, pick: uint32)
    requires Invariant(s) && s.finishButtons && env.devices != []
    ensures var a := MadeAnother(s, env);
      var (b, nextFromUsb) := Clicked(a, env);
      var (c, nextFromDevices) := Clicked(b, env.(checkedDevice := Some(pick)));
      && nextFromUsb && b.current == DeviceSelect
      && nextFromDevices && c.current == WriteOperation
  {
    var a := MadeAnother(s, env);
    assert a.current == UsbInsert && a.drivelist.Some? && a.downloadFinished;
  }

  /** The pages' state as fields of one object, updated in place by the handlers. */
  class GondarWizard {
    var current: PageId
    var startId: PageId
    var finishButtons: bool
    var isAdmin: bool
    var url: string
    var downloadFinished: bool
    var rangeSet: bool
    var progressMaximum: int32
    var progressValue: int32
    var timerRunning: bool
    var timerInterval: nat
    var drivelist: Option<DeviceGuyList>
    var selectedDrive: Option<DeviceGuy>
    var writeFinished: bool
    var writesLaunched: seq<WriteJob>
    var nextEnabled: bool

    function State(): WizardState
      reads this
    {
      WizardState(current, startId, finishButtons, isAdmin, url, downloadFinished, rangeSet,
        progressMaximum, progressValue, timerRunning, timerInterval, drivelist, selectedDrive,
        writeFinished, writesLaunched, nextEnabled)
    }

    /** The invariant between two handlers. */
    ghost predicate Valid()
      reads this
    {
      Invariant(State())
    }

    /** The invariant while a page is initialised, before the buttons are refreshed. */
    ghost predicate Consistent()
      reads this
    {
      PagesInvariant(State())
    }

    function IsComplete(p: PageId): bool
      reads this
    {
      Complete(State(), p)
    }

    /** The constructors of the wizard and its pages, then show(), which starts the wizard
        on its lowest page and enters it. writeFinished is not initialised by its
        constructor; it starts false here and is assigned before it is first read. */
    constructor (elevated: bool)
      ensures Valid()
      ensures State() == Shown().(isAdmin := elevated, nextEnabled := elevated)
    {
      current, startId, finishButtons := AdminCheck, AdminCheck, false;
      isAdmin := false;
      url, downloadFinished, rangeSet := "", false, false;
      progressMaximum, progressValue := 100, -1;
      timerRunning, timerInterval := false, 0;
      drivelist, selectedDrive := None, None;
      writeFinished, writesLaunched := false, [];
      nextEnabled := false;
      new;
      InitializeAdminCheck(elevated);
      Refresh();
    }

    /** QWizard's refresh of the Next button, on completeChanged and after entering a page. */
    method Refresh()
      modifies this
      ensures State() == Refreshed(old(State()))
    {
      nextEnabled := IsComplete(current);
    }

    /** AdminCheckPage::initializePage: the page is complete exactly when the process is
        elevated, and only the elevated case emits completeChanged. */
    method InitializeAdminCheck(elevated: bool)
      requires Consistent() && current == AdminCheck
      modifies this
      ensures Consistent()
      ensures State() == old(State()).(isAdmin := elevated, nextEnabled := elevated || old(nextEnabled))
      ensures IsComplete(AdminCheck) == elevated
    {
      isAdmin := elevated;
      if elevated {
        Refresh();
      }
    }

    /** UsbInsertPage::getDriveList, run on the page's request and on every timer tick. Both
        run while there is no drive list: the request comes right after the page dropped the
        old list, and the timer runs only while there is none. */
    method GetDriveList(devices: DeviceGuyList)
      requires Consistent() && current == UsbInsert && drivelist.None?
      modifies this
      ensures Consistent()
      ensures old(Valid()) ==> Valid()
      ensures State() == Polled(old(State()), devices)
      ensures IsComplete(UsbInsert) <==> devices != []
    {
      drivelist := Some(devices);
      if |devices| == 0 {
        drivelist := None;
        timerRunning, timerInterval := true, PollIntervalMs;
      } else {
        timerRunning := false;
        Refresh();
      }
    }

    /** A timeout of the polling timer; an inactive timer never fires. */
    method TimerFired(devices: DeviceGuyList)
      requires Valid()
      modifies this
      ensures Valid()
      ensures State() == if old(timerRunning) then Polled(old(State()), devices) else old(State())
    {
      if timerRunning {
        GetDriveList(devices);
      }
    }

    /** UsbInsertPage::initializePage. The page makes a new timer without stopping the one
        it had, so that one must not be running: Valid() guarantees this whenever the page
        is entered from another page. */
    method InitializeUsbInsert(devices: DeviceGuyList)
      requires Consistent() && current == UsbInsert && !timerRunning
      modifies this
      ensures Consistent()
      ensures State() == Polled(old(State()).(drivelist := None, timerInterval := 0), devices)
    {
      timerRunning, timerInterval := false, 0;
      drivelist := None;
      GetDriveList(devices);
    }

    /** DeviceSelectPage::validatePage, given the device number of the checked button. */
    method ValidateDeviceSelect(checked: Option<uint32>) returns (ok: bool)
      requires Valid() && current == DeviceSelect
      modifies this
      ensures Valid()
      ensures ok <==> checked.Some?
      ensures !ok ==> State() == old(State())
      ensures ok ==> State() == old(State()).(selectedDrive := GetByIndex(drivelist, checked.value))
    {
      if checked.None? {
        return false;
      }
      selectedDrive := GetByIndex(drivelist, checked.value);
      return true;
    }

    /** DownloadProgressPage::initializePage: the URL of the checked image. Starting the
        download itself is left to the download manager, which is not modelled. */
    method InitializeDownloadProgress(checked: Option<Bitness>)
      requires Consistent()
      modifies this
      ensures Consistent()
      ensures State() == old(State()).(url := GetUrl(checked))
    {
      url := GetUrl(checked);
    }

    /** DownloadProgressPage::downloadProgress */
    method OnDownloadProgress(sofar: int64, total: int64)
      requires Valid()
      modifies this
      ensures Valid()
      ensures State() == Progressed(old(State()), sofar, total)
    {
      if !rangeSet {
        rangeSet := true;
        progressMaximum := Int32Of(total);
      }
      progressValue := Int32Of(sofar);
    }

    /** DownloadProgressPage::markComplete: the download is finished for good, and the bar
        turns into a busy indicator while the image is extracted. It does not emit
        completeChanged, so the Next button stays as it was. */
    method MarkComplete()
      requires Valid()
      modifies this
      ensures Valid()
      ensures State() == old(State()).(downloadFinished := true, progressMaximum := 0, progressValue := 0)
      ensures IsComplete(DownloadProgress)
    {
      downloadFinished := true;
      progressMaximum, progressValue := 0, 0;
    }

    /** WriteOperationPage::initializePage: not finished, and a write starts only when a
        drive is selected. */
    method InitializeWriteOperation()
      requires Consistent() && current == WriteOperation
      modifies this
      ensures Consistent()
      ensures State() == old(State()).(writeFinished := false,
        writesLaunched := old(writesLaunched) + WriteJobs(old(selectedDrive)))
      ensures !IsComplete(WriteOperation)
    {
      writeFinished := false;
      if selectedDrive.Some? {
        writesLaunched := writesLaunched + [WriteJob(selectedDrive.value, ImagePath)];
      }
    }

    /** WriteOperationPage::onDoneWriting, when the write thread finishes: the page becomes
        complete, the finish buttons appear, and completeChanged enables the button. */
    method OnDoneWriting()
      requires Valid() && current == WriteOperation
      modifies this
      ensures Valid()
      ensures State() == old(State()).(writeFinished := true, finishButtons := true, nextEnabled := true)
      ensures IsComplete(WriteOperation)
    {
      writeFinished := true;
      finishButtons := true;
      Refresh();
    }

    /** validatePage of the current page. */
    method ValidatePage(checked: Option<uint32>) returns (ok: bool)
      requires Valid()
      modifies this
      ensures Valid()
      ensures Validated(old(State()), Environment([], false, checked, None)) ==
        if ok then Some(State()) else None
      ensures !ok ==> State() == old(State())
    {
      match current
      case DeviceSelect =>
        ok := ValidateDeviceSelect(checked);
      case WriteOperation =>
        ok := writeFinished;
      case _ =>
        ok := true;
    }

    /** initializePage of the page just entered. */
    method InitializePage(env: Environment)
      requires Consistent()
      requires current == UsbInsert ==> !timerRunning
      modifies this
      ensures Consistent()
      ensures State() == Initialized(old(State()), env)
    {
      match current
      case AdminCheck => InitializeAdminCheck(env.elevated);
      case ImageSelect =>
      case UsbInsert => InitializeUsbInsert(env.devices);
      case DeviceSelect =>
      case DownloadProgress => InitializeDownloadProgress(env.checkedBitness);
      case WriteOperation => InitializeWriteOperation();
    }

    /** QWizard::next, which the Next button and the end of the extraction both call. */
    method Advance(env: Environment) returns (moved: bool)
      requires Valid() && IsComplete(current)
      modifies this
      ensures Valid()
      ensures (State(), moved) == Advanced(old(State()), env)
    {
      ghost var s := State();
      var ok := ValidatePage(env.checkedDevice);
      if !ok {
        return false;
      }
      ghost var v := State();
      assert Validated(s, env) == Some(v);
      var next := NextId(current, downloadFinished);
      if next.None? {
        return false;
      }
      current := next.value;
      ghost var u := State();
      assert u == v.(current := next.value);
      AdvancedKeepsInvariant(s, env);
      InitializePage(env);
      Refresh();
      assert State() == Entered(u, env);
      return true;
    }

    /** A click on the Next button, which does nothing while the button is greyed out. */
    method ClickNext(env: Environment) returns (moved: bool)
      requires Valid()
      modifies this
      ensures Valid()
      ensures (State(), moved) == Clicked(old(State()), env)
    {
      if nextEnabled {
        moved := Advance(env);
      } else {
        moved := false;
      }
    }

    /** DownloadProgressPage::onUnzipFinished: the bar shows 100 of 100 and the wizard moves
        on by itself. The extraction starts in markComplete and the page's Next button stays
        greyed out until this handler runs, so the wizard is still on the download page. The
        completeChanged it emits is followed at once by next(), whose page switch refreshes
        the buttons again, so that refresh is not visible. */
    method OnUnzipFinished(env: Environment) returns (moved: bool)
      requires Valid() && current == DownloadProgress && downloadFinished
      modifies this
      ensures Valid()
      ensures (State(), moved) == Advanced(old(State()).(progressMaximum := 100, progressValue := 100), env)
      ensures moved && current == WriteOperation
    {
      progressMaximum, progressValue := 100, 100;
      moved := Advance(env);
    }

    /** GondarWizard::handleMakeAnother, the "Make Another USB" button, which exists only
        while the finish buttons are shown. */
    method HandleMakeAnother(env: Environment)
      requires Valid() && finishButtons
      modifies this
      ensures Valid()
      ensures State() == MadeAnother(old(State()), env)
      ensures current == UsbInsert
    {
      finishButtons := false;
      var start := PageOf(MakeAnotherStartId());
      if start.Some? {
        startId := start.value;
      }
      current := startId;
      InitializePage(env);
      Refresh();
    }
  }

  /** The state of a wizard just shown to an administrator. */
  function Shown(): WizardState {
    WizardState(AdminCheck, AdminCheck, false, true, "", false, false, 100, -1, false, 0, None, None, false, [], true)
  }

  /** First run up to the device page: nothing is plugged in until the second timer tick. */
  method FindFirstDrive(w: GondarWizard, d: DeviceGuy) returns (blockedWithoutDrive: bool)
    requires w.Valid() && w.State() == Shown()
    modifies w
    ensures w.Valid() && blockedWithoutDrive
    ensures w.State() == Shown().(current := DeviceSelect, drivelist := Some([d]), timerInterval := PollIntervalMs)
  {
    var nothing := Environment([], true, None, None);
    var env := Environment([d], true, Some(d.deviceNum), Some(SixtyFour));
    ghost var s := w.State();
    var moved := w.ClickNext(nothing);   // welcome page -> image page
    assert w.State() == s.(current := ImageSelect);
    s := w.State();
    moved := w.ClickNext(nothing);       // image page -> USB page, no device yet
    assert w.State() == s.(current := UsbInsert, timerRunning := true, timerInterval := PollIntervalMs,
      nextEnabled := false);
    s := w.State();
    moved := w.ClickNext(nothing);       // Next is greyed out
    blockedWithoutDrive := !moved && w.current == UsbInsert;
    assert blockedWithoutDrive && w.State() == s;
    w.TimerFired([]);
    assert w.State() == s;
    w.TimerFired([d]);
    assert w.State() == s.(drivelist := Some([d]), timerRunning := false, nextEnabled := true);
    s := w.State();
    moved := w.ClickNext(env);           // USB page -> device page
  }

  /** First run from the device page: download, extraction and the first write. Next stays
      greyed out on the download page, even after the download has finished. */
  method DownloadAndWrite(w: GondarWizard, d: DeviceGuy) returns (blockedWhileExtracting: bool)
    requires w.Valid() && w.State() == Shown().(current := DeviceSelect, drivelist := Some([d]), timerInterval := PollIntervalMs)
    modifies w
    ensures w.Valid() && w.current == WriteOperation && w.finishButtons && w.downloadFinished
    ensures w.drivelist == Some([d]) && w.selectedDrive == Some(d) && !w.timerRunning
    ensures w.writesLaunched == [WriteJob(d, ImagePath)]
    ensures blockedWhileExtracting
  {
    var env := Environment([d], true, Some(d.deviceNum), Some(SixtyFour));
    FindDeviceFirstMatch([d], d.deviceNum, 0);
    ghost var s := w.State();
    var moved := w.ClickNext(env);       // device page -> download page
    assert w.State() == s.(current := DownloadProgress, selectedDrive := Some(d), url := SixtyFourUrl,
      nextEnabled := false);
    w.OnDownloadProgress(500, 1000);
    w.OnDownloadProgress(1000, 1000);
    w.MarkComplete();
    s := w.State();
    moved := w.ClickNext(env);           // still greyed out while the image is extracted
    blockedWhileExtracting := !moved;
    assert s.current == DownloadProgress && s.selectedDrive == Some(d) && s.writesLaunched == [];
    assert w.State() == s;
    moved := w.OnUnzipFinished(env);     // -> write page, first write
    assert w.State() == s.(progressMaximum := 100, progressValue := 100, current := WriteOperation,
      writesLaunched := [WriteJob(d, ImagePath)]);
    w.OnDoneWriting();
  }

  /** Second run: "Make Another USB" with the drive still plugged in. */
  method WriteAgain(w: GondarWizard, d: DeviceGuy) returns (page: PageId)
    requires w.Valid() && w.current == WriteOperation && w.finishButtons && w.downloadFinished
    requires w.writesLaunched == [WriteJob(d, ImagePath)]
    modifies w
    ensures page == WriteOperation && w.current == page
    ensures w.writesLaunched == [WriteJob(d, ImagePath), WriteJob(d, ImagePath)]
  {
    var env := Environment([d], true, Some(d.deviceNum), Some(SixtyFour));
    FindDeviceFirstMatch([d], d.deviceNum, 0);
    w.HandleMakeAnother(env);            // -> USB page, device present
    ghost var s := w.State();
    assert s.current == UsbInsert && s.drivelist == Some([d]) && s.downloadFinished && s.nextEnabled;
    var moved := w.ClickNext(env);       // USB page -> device page
    assert w.State() == s.(current := DeviceSelect);
    s := w.State();
    moved := w.ClickNext(env);           // device page -> write page, second write
    assert w.State() == s.(current := WriteOperation, selectedDrive := Some(d), writeFinished := false,
      writesLaunched := [WriteJob(d, ImagePath), WriteJob(d, ImagePath)], nextEnabled := false);
    page := w.current;
  }

  /** Two runs on one wizard, from the handlers' contracts alone. In the first, nothing is
      plugged in until the second timer tick, and Next stays greyed out until then; the
      image is downloaded and extracted, with Next greyed out meanwhile, and the drive is
      written. After "Make Another USB", the device page leads straight to the write page
      and the same drive is written again. */
  method TwoRuns(d: DeviceGuy) returns (blockedWithoutDrive: bool, blockedWhileExtracting: bool,
      secondRunPage: PageId, writes: seq<WriteJob>)
    ensures blockedWithoutDrive && blockedWhileExtracting
    ensures secondRunPage == WriteOperation
    ensures writes == [WriteJob(d, ImagePath), WriteJob(d, ImagePath)]
  {
    var w := new GondarWizard(true);
    blockedWithoutDrive := FindFirstDrive(w, d);
    blockedWhileExtracting := DownloadAndWrite(w, d);
    secondRunPage := WriteAgain(w, d);
    writes := w.writesLaunched;
  }
}
