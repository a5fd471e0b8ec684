# CloudReady USB Maker: device records, wizard sequencing, test picker rule

A Dafny model of the sequential logic inside the CloudReady USB creation wizard (a Qt application):

- **Device records** (`src/device.cc`):
  - `DeviceGuy` is a value `(deviceNum, name)` with field-wise equality.
  - Its text form is `Device(id=<n>, name="<name>")`.
  - `findDevice` finds the first device with a given number, or fails with "device not found".
  - The decimal text that `std::to_string` produces is modelled in module `Decimal`, and proved to read back to the number.
- **Wizard sequencing** (`src/gondarwizard.cc`). The pages keep two globals (`drivelist`, `selected_drive`), a polling timer and the flags `is_admin`, `download_finished`, `range_set` and `writeFinished`. QWizard keeps whether the Next button is enabled.
  - Class `Wizard.GondarWizard` holds these as fields. Its methods are the page handlers (`getDriveList`, the `initializePage`/`validatePage` overrides, `downloadProgress`, `markComplete`, `onUnzipFinished`, `onDoneWriting`, `handleMakeAnother`) and QWizard's Next.
  - Each method's postcondition ties the new field values (`State()`) to a pure transition function over the record `WizardState`. That function is `Polled`, `Initialized`, `Entered`, `Validated`, `Advanced`, `Clicked`, `MadeAnother` or `Progressed`.
  - Lemmas state what the source promises about those transitions, and `Invariant` holds between any two handlers.
  - The page-order decisions (`nextId`, the start id of "Make Another USB") and `getUrl` are pure functions in module `Pages`.
- **Stand-in device picker** (`test/bigtest.cc`). `MockDevicePicker::selectedButton` picks the checked button, otherwise the first enabled one, otherwise none. The module also has the exit test of the test's polling loop.

Foreign results are parameters:
- `GetDeviceList()` is a `seq<DeviceGuy>`.
- `IsCurrentProcessElevated()` is a `bool`.
- The checked radio buttons are `Option` values.

They are bundled for the wizard as `Wizard.Environment`.

Assumptions the model makes explicit:
- **Page ids.** `gondarwizard.h` is not part of this model. The ids are taken from the integration test's comments (`test/bigtest.cc:72-79`, 84-92): admin 0, image 3, USB 4, device 5, download 6, write 7. `Pages.MakeAnotherStartId` proves that with these ids `usbInsertPage.nextId() - 1` names the USB page.
- **`DeviceGuyList_getByIndex`** is not part of this model. The button's `index` is the device number (`src/gondarwizard.cc:309`, 18-23), so the lookup is modelled as `findDevice` on that number, with NULL for no match (`Wizard.GetByIndex`).
- **Byte counts on the progress bar.** `downloadProgress` passes its `qint64` byte counts to `QProgressBar::setRange(int, int)` and `setValue(int)`. This narrowing is written out as two's complement truncation (`Wizard.Int32Of`), so a total of 2^31 bytes or more does not reach the bar unchanged.
- **One timer.** `UsbInsertPage::initializePage` makes a new `QTimer` without stopping the old one. The model keeps one timer, and `InitializeUsbInsert` requires that it is not running. `Invariant` proves this holds every time the page is entered, so no stale timer would keep polling.
- **Exclusive button group.** `BigTest.SelectedButton` assumes at most one button of the group is checked. A `QButtonGroup` is exclusive by default.
- **QWizard behaviour.** The model follows Qt's documented behaviour:
  - The Next button's enabled state is set from `isComplete()` only when a page emits `completeChanged()` and after a page is entered. A click on a greyed-out Next does nothing. `markComplete` emits nothing, so Next stays greyed out on the download page while the image is extracted (`Wizard.ClickedOnlyWhenComplete`).
  - `next()` calls `validatePage()`, moves to `nextId()` and calls that page's `initializePage()`.
  - A page that does not override `nextId` goes to the registered page with the next higher id.
  - `setStartId` ignores an id with no page.
  - `restart()` initialises the start page.
- **A second run.** "Make Another USB" keeps `download_finished` and `selected_drive`, so a second run skips the download (`Wizard.SecondRunSkipsDownload`).
- **No failures.** No failure of download, extraction or write is ever reported to the wizard.

## Model

| member | source | states |
|---|---|---|
| `Device.Equal` | src/device.cc:30-32 | `operator==`: the two numbers agree and the two names agree |
| `Device.EqualIffSameRecord` | src/device.cc:30-32 | `operator==` holds exactly when both the number and the name agree; a record has no other field |
| `Device.EqualIsEquivalence` | src/device.cc:30-32 | `operator==` is reflexive, symmetric and transitive |
| `Decimal.Render` | src/device.cc:35 | the decimal text of a number is non-empty and all digits, and starts with `0` only when it is `"0"` |
| `Decimal.ValueOfRender` | src/device.cc:35 | reading the decimal text back gives the number |
| `Decimal.RenderOfValue` | src/device.cc:35 | every digit string without a superfluous leading zero is the text of its value, so the text form is one-to-one |
| `Device.ToString` | src/device.cc:34-37 | `toString`: `Device(id=`, the decimal number, `, name="`, the name, `")` |
| `Device.ToStringIdText` | src/device.cc:35 | in `toString`, the digits after `id=` read back to `device_num` and end where the `, name` part begins |
| `Device.ParseToString` | src/device.cc:34-37 | `toString` loses nothing: the fixed form `Device(id=..., name="...")` parses back to the same device, quotes in the name included |
| `Device.FindIf` | src/device.cc:40-44 | `std::find_if` gives the position of the first device with the number, or the end position when there is none |
| `Device.FindDevice` | src/device.cc:39-49 | lookup fails with "device not found" exactly when no device has the number; otherwise it returns a device of the list with that number that no earlier device matches |
| `Device.FindDeviceFirstMatch` | src/device.cc:44-49 | when position i holds the first device with the number, lookup returns exactly that device |
| `Device.FindDeviceIgnoresNames` | src/device.cc:40-42 | lookup reads only numbers: lists with the same numbers give the same success and the same position, whatever the names |
| `BigTest.CheckedButton` | test/bigtest.cc:40 | the checked button of the group is a checked member, and there is none exactly when no button is checked |
| `BigTest.SelectedButton` | test/bigtest.cc:38-53 | a checked button is returned whether or not it is enabled; with none checked, the first enabled button in group order; none exactly when nothing is checked or enabled; the result is always a member of the group |
| `BigTest.LeavesPollLoop` | test/bigtest.cc:86 | `currentId() != 6 \|\| currentId() == 7` holds exactly when the id is not 6 |
| `Pages.PageOf` | src/gondarwizard.cc:28-33 | the six registered pages and their ids; no page answers to any other id |
| `Pages.DefaultNextId` | src/gondarwizard.cc:28-33 | without an override, a page's next page has the least registered id above its own, and only the last page has none |
| `Pages.NextId` | src/gondarwizard.cc:330-337 | the device page goes to the write page exactly when the download page is complete, otherwise to the download page; every other page keeps the default; navigation only moves to higher ids |
| `Pages.MakeAnotherStartId` | src/gondarwizard.cc:53-54 | `usbInsertPage.nextId() - 1` is the id of the USB page |
| `Pages.UrlsDiffer` | src/gondarwizard.cc:135-140 | the 32-bit and 64-bit image URLs are different |
| `Pages.GetUrl` | src/gondarwizard.cc:143-153 | the 32-bit URL exactly when the 32-bit button is checked, the 64-bit URL in every other case, including no checked button |
| `Wizard.Int32Of` | src/gondarwizard.cc:186-188 | the narrowed value equals the byte count when it fits in an `int` and is congruent to it modulo 2^32 always |
| `Wizard.GetByIndex` | src/gondarwizard.cc:324-325 | the looked-up drive is a member of the list with the checked number, and NULL exactly when the list is NULL or lookup fails |
| `Wizard.Complete` | src/gondarwizard.cc:95-98 | `isComplete` of each page: admin page while `is_admin`, USB page while `drivelist` is non-NULL (255-263), download page once `download_finished` (217-219), write page once `writeFinished` (357-359), the image and device pages always |
| `Wizard.Polled` | src/gondarwizard.cc:265-275 | `getDriveList`: an empty enumeration drops the list and starts the timer at 1000 ms; a non-empty one is kept, stops the timer and, through `showDriveList`'s `completeChanged`, refreshes the Next button |
| `Wizard.Refreshed` | src/gondarwizard.cc:277-279 | QWizard's reaction to `completeChanged`: Next becomes enabled exactly when the current page is complete |
| `Wizard.Initialized` | src/gondarwizard.cc:243-253 | the `initializePage` override of the current page: admin page records elevation (86-98), USB page drops the list and enumerates, download page takes `getUrl` (166-175), write page resets `writeFinished` and starts a write when a drive is selected (347-355) |
| `Wizard.Entered` | src/gondarwizard.cc:28-33 | entering a page: its `initializePage`, then the refresh of Next from its `isComplete` |
| `Wizard.Validated` | src/gondarwizard.cc:317-328 | `validatePage` of the current page: the device page refuses without a checked button and otherwise sets `selected_drive`; the write page passes once `writeFinished` (361-363); the others always pass |
| `Wizard.Advanced` | src/gondarwizard.cc:330-337 | QWizard's next: validate, go to `nextId`, enter that page; no move when validation refuses or there is no next page |
| `Wizard.Clicked` | src/gondarwizard.cc:95-97 | a click on Next: nothing while the button is greyed out, otherwise next |
| `Wizard.MadeAnother` | src/gondarwizard.cc:50-56 | `handleMakeAnother`: hide the finish buttons, set the start id to `usbInsertPage.nextId() - 1`, and restart there |
| `Wizard.Progressed` | src/gondarwizard.cc:183-189 | `downloadProgress`: the first event sets the range from its total; every event sets the value |
| `Wizard.ProgressedAll` | src/gondarwizard.cc:183-189 | a run of `downloadProgress` events, oldest first |
| `Wizard.ProgressRangeFromFirstEvent` | src/gondarwizard.cc:183-189 | across any run of progress events the bar's range comes from the first event's total and its value from the last event's so-far; nothing else changes |
| `Wizard.ProgressValueFromLastEvent` | src/gondarwizard.cc:188 | once the range is set, later events change only the value, to that of the last event |
| `Wizard.PolledCompleteIffDevices` | src/gondarwizard.cc:255-275 | after `getDriveList` the USB page is complete exactly when the enumeration was non-empty; the timer runs exactly when it was empty; the list is kept exactly when non-empty |
| `Wizard.ValidatedKeepsPage` | src/gondarwizard.cc:317-328 | `validatePage` changes neither the page, nor the download flag, nor the writes started |
| `Wizard.InitializedKeepsPage` | src/gondarwizard.cc:347-355 | `initializePage` keeps the page, the download flag and the selected drive; only the write page starts a write, with the selected drive, and it resets `writeFinished` |
| `Wizard.AdvancedMovesForward` | src/gondarwizard.cc:330-337 | Next moves only to the page `nextId` names, always to a higher id, and never changes `download_finished` |
| `Wizard.DeviceSelectValidation` | src/gondarwizard.cc:317-328 | with no checked button the device page refuses and nothing changes; with one it moves on and `selected_drive` is the lookup of the checked number |
| `Wizard.WriteStartsOnlyWithDrive` | src/gondarwizard.cc:347-355 | a write starts only on entry to the write page, only with a selected drive, on that drive and the image `chromiumos_image.bin`, and the page is then not finished |
| `Wizard.AdvancedKeepsInvariant` | src/gondarwizard.cc:255-263 | moving on from a complete page keeps the invariant: the device, download and write pages always have a non-empty drive list, the write page is reached only after the download finished, and Next is enabled exactly on a complete page other than the download page |
| `Wizard.InitializedKeepsInvariant` | src/gondarwizard.cc:243-253 | initialising an entered page keeps the pages' invariant, and the refresh after it makes Next agree with `isComplete` |
| `Wizard.ClickedOnlyWhenComplete` | src/gondarwizard.cc:191-209 | a click on Next moves only from a complete page, and never from the download page: `markComplete` emits no `completeChanged`, and only `onUnzipFinished` leaves that page |
| `Wizard.MadeAnotherRestartsAtUsbInsert` | src/gondarwizard.cc:50-56 | "Make Another USB" restarts on the USB page with a fresh enumeration and hides the finish buttons, keeping `download_finished` and the previous `selected_drive` |
| `Wizard.SecondRunSkipsDownload` | src/gondarwizard.cc:330-337 | after "Make Another USB" with a drive plugged in, Next leads to the device page and from there straight to the write page |
| `Wizard.GondarWizard.constructor` | src/gondarwizard.cc:24-47 | a new, shown wizard is on the admin page with every flag false, no drive list, no selected drive and no timer, and Next is enabled exactly when the process is elevated |
| `Wizard.GondarWizard.Refresh` | src/gondarwizard.cc:110 | on `completeChanged`, Next is set from the current page's `isComplete` |
| `Wizard.GondarWizard.InitializeAdminCheck` | src/gondarwizard.cc:86-98 | the admin page records the elevation result and is complete exactly when the process is elevated; only the elevated case emits `completeChanged` and enables Next |
| `Wizard.GondarWizard.GetDriveList` | src/gondarwizard.cc:265-275 | an empty enumeration leaves `drivelist` NULL and starts the timer at 1000 ms; a non-empty one is kept, the timer stops and Next is refreshed; the page is complete exactly in the second case |
| `Wizard.GondarWizard.TimerFired` | src/gondarwizard.cc:244-245 | a tick of the running timer re-enumerates as `getDriveList`; a stopped timer changes nothing |
| `Wizard.GondarWizard.InitializeUsbInsert` | src/gondarwizard.cc:243-253 | entering the USB page discards the old list and the old timer before the new enumeration, so the result depends only on that enumeration |
| `Wizard.GondarWizard.ValidateDeviceSelect` | src/gondarwizard.cc:317-328 | no checked button: returns false and nothing changes; otherwise returns true and sets `selected_drive` to the lookup of the checked number |
| `Wizard.GondarWizard.InitializeDownloadProgress` | src/gondarwizard.cc:166-175 | the download page takes its URL from `getUrl` |
| `Wizard.GondarWizard.OnDownloadProgress` | src/gondarwizard.cc:183-189 | the first event sets the range from its total and marks it set; every event sets the value |
| `Wizard.GondarWizard.MarkComplete` | src/gondarwizard.cc:191-198 | `download_finished` becomes true and the download page complete; the bar becomes a busy indicator (range 0..0); Next stays as it was |
| `Wizard.GondarWizard.OnUnzipFinished` | src/gondarwizard.cc:200-209 | the bar shows 100 of 100 and the wizard moves on by itself to the write page |
| `Wizard.GondarWizard.InitializeWriteOperation` | src/gondarwizard.cc:347-355 | `writeFinished` is reset on entry, the page is incomplete, and a write is started exactly when `selected_drive` is non-NULL |
| `Wizard.GondarWizard.OnDoneWriting` | src/gondarwizard.cc:381-391 | `writeFinished` becomes true, the write page is complete, the finish buttons are shown and Next is enabled |
| `Wizard.GondarWizard.ValidatePage` | src/gondarwizard.cc:361-363 | `validatePage` of the current page: the write page passes exactly when `writeFinished`, the device page as `ValidateDeviceSelect`, the others always |
| `Wizard.GondarWizard.InitializePage` | src/gondarwizard.cc:243-253 | the `initializePage` override of whichever page was entered runs, with the effects of `Initialized` |
| `Wizard.GondarWizard.Advance` | src/gondarwizard.cc:330-337 | QWizard's next: validate, move to `nextId`, initialise the new page and refresh Next, with the effects of `Advanced` |
| `Wizard.GondarWizard.ClickNext` | src/gondarwizard.cc:95-97 | a click on Next does nothing while the button is greyed out, and advances otherwise, with the effects of `Clicked` |
| `Wizard.GondarWizard.HandleMakeAnother` | src/gondarwizard.cc:50-56 | the wizard restarts on the USB page with the effects of `MadeAnother` |
| `Wizard.TwoRuns` | src/gondarwizard.cc:50-56 | one wizard object run end to end. Next stays blocked until a device appears, and again while the image is extracted; the first run downloads and writes. After "Make Another USB" it goes from the device page straight to the write page, and the same drive is written twice |

## Left out

- Qt presentation: titles, subtitles, pixmaps, layouts and labels. `DeviceSelectPage::initializePage` only builds radio buttons, so it has no effect in the model. The write page's progress bar is left out too.
- The refresh that the `completeChanged()` of `onUnzipFinished` causes is not modelled. `next()` follows it at once and refreshes the buttons again on the write page, so it is never visible.
- `Wizard.GondarWizard.GetDriveList` requires that there is no drive list. Both callers meet this: the page's request comes right after it dropped the list, and the timer runs only while there is none.
- Aliasing of `selected_drive` is not modelled. In the source it is a pointer into `drivelist`, which `UsbInsertPage::initializePage` frees when "Make Another USB" re-enters the page, leaving the pointer dangling. The model keeps the old drive as a value. This is never observable, because the device page's `validatePage` reassigns `selected_drive` before the write page reads it.
- `QProgressBar`'s own handling of its arguments is not modelled. It adjusts a range whose maximum is below its minimum and ignores values outside the range. The model records the values the source passes.
- Background work is not modelled: the download manager and its `started`/`finished` signals, `UnzipThread`, `DiskWriteThread`, and the foreign `Install` and `DeviceGuy_copy` calls (`diskwritethread.cc`). A started write is a `WriteJob` value. The end of a download, an extraction or a write is the call of the matching handler.
- `QTimer` time semantics are not modelled. The timer is a running flag plus an interval, and a timeout is a `TimerFired` call.
- The foreign helpers `GetDeviceList`, `IsCurrentProcessElevated`, `DeviceGuyList_free`, `DeviceGuyList_length` and `DeviceGuyList_getByIndex` are not part of this model. Their results are inputs, and lookup is assumed as stated above.
- Manual freeing of the C device list and `delete layout`. The list is an `Option<seq<DeviceGuy>>` that is replaced wholesale.
- QWizard's page history, the Back button (the wizard shows only Next), `cleanupPage` and the per-run "initialized" set. The wizard only moves forward, so within a run each page is entered at most once.
- `WriteOperationPage::writeFinished` is not set by its constructor. The model starts it at false; the page assigns it on entry, before anything reads it.
- Devices have no size field. `src/device.cc` builds a record of number and name only. The three-argument constructor in `test/test.cc` belongs to a header that is not part of this model.
- `test/test.cc` is not modelled: its `DevicePicker` class source is not part of this model, and the rest is timed GUI clicks. Also left out: the waiting and clicking in `test/bigtest.cc` around the selection rule and the loop's exit test.
- `src/feedback_dialog.cc` (a Qt form that posts JSON over HTTP), `src/newest_image_url.h` (declarations of a network fetch) and `src/chromeover_login_page.h` (UI declarations).
- `src/gondarwizard.cc` has no error state, cancellation, retry or timing of a run, and none is modelled. No handler reports a failure: the write page logs "no drive selected" and stays incomplete.
