# RTSP camera monitor: a Dafny model of `CameraManager`

`view_rtsp_camera.py` is a Streamlit page that watches a list of RTSP cameras. Its core
is a `CameraManager` object. It keeps four dictionaries indexed by camera position:
`running` flags, `threads`, the last `status` ("connected" / "disconnected") and the
last `frames`. For each started camera it runs one capture loop in a thread. The loop:

- reads a frame;
- on failure, falls back to a generated "NO SIGNAL" placeholder;
- stamps the stored frame with the current time, plus a "REC" mark when the camera is
  connected.

The camera list comes from a text file. When that file is missing, it is 16 made-up
addresses. An uploaded text file replaces it. The page shows the list in pages of 4, 9,
16 or 36 cameras, laid out as a square grid.

The model has five modules:

- `Wrappers` (`wrappers.dfy`): the `Option` type.
- `Text` (`text.dfy`): the Python string operations the core relies on.
  - `str.strip()`, with Python's exact whitespace set.
  - Splitting at line breaks, with its inverse `Join`.
  - Decimal rendering of a number, with its inverse.
- `CameraUrls` (`camera_urls.dfy`): `read_camera_urls`, the made-up list, and the
  parsing of an upload. These are pure functions with lemmas about order, whitespace
  and the agreement of the two parsers.
- `Paging` (`paging.dfy`): the page count, the page slice and the grid rows. Pure
  functions with lemmas (every camera is on exactly one page, a page fits its grid).
  The grid loop is a method with loop invariants.
- `Cameras` (`cameras.dfy`): the manager as a class whose methods update its maps in
  place.
  - `start_camera`, `stop_camera`, `stop_all_cameras`, and the buttons that call them.
  - One capture-loop iteration, and the loop itself over a finite schedule of reads and
    stop requests.
  - The overlay decision of `add_timestamp_to_frame`, and the `None` guard of
    `frame_to_base64`.

A frame is a value: what it pictures (an opaque captured image or the placeholder of a
label) plus the list of marks drawn on it so far. A thread is a `Worker` object that
records the camera index and address it was started with. The clock is a `now`
parameter, in seconds.

Where the code differs from what a reader might expect, the model follows the code:

- A camera that was never started has no `status` entry. There is no "unknown" value.
- `stop_camera` waits at most one second for the thread. Nothing is reported when the
  wait times out.
- `frame_to_base64` ignores the success flag of `cv2.imencode`. No encoding error is
  reported.
- The number of made-up addresses is fixed at 16.
- The configuration file is read in text mode, so its lines end at `\n`, `\r` or
  `\r\n`. The upload is split at `\n` only. The two parses agree on text without `\r`
  (`UploadAgreesWithFile`).

## Model

| member | source | states |
|---|---|---|
| Text.IsSpace | view_rtsp_camera.py:108 | on ASCII, the characters `strip()` removes are exactly tab, line feed, vertical tab, form feed, carriage return, the separators 0x1C to 0x1F and space; no digit, `:`, `/` or `.` is ever removed |
| Text.TrimLeft | view_rtsp_camera.py:108 | the result is a suffix of the input; every dropped character is Python whitespace; the result does not start with whitespace |
| Text.TrimRight | view_rtsp_camera.py:108 | the result is a prefix of the input; every dropped character is whitespace; the result does not end with whitespace |
| Text.Strip | view_rtsp_camera.py:108 | `strip()` leaves no whitespace at either end and never lengthens; it gives the empty string exactly when every character is whitespace |
| Text.StripAvoids | view_rtsp_camera.py:108 | stripping only removes characters, so a character absent from the input is absent from the result |
| Text.StripStripped | view_rtsp_camera.py:108 | a string with no whitespace at its ends is its own stripped form, so `strip()` is idempotent: stripping an entry that was already stripped changes nothing |
| Text.StripConsSpace | view_rtsp_camera.py:231 | whitespace put in front of a string does not change its stripped form |
| Text.TrimLeftSnocSpace | view_rtsp_camera.py:231 | trimming the left of `s + [c]`, for whitespace `c`, is trimming `s` and appending `c`, or empty when `s` is all whitespace |
| Text.StripSnocSpace | view_rtsp_camera.py:231 | whitespace appended to a string does not change its stripped form |
| Text.Split | view_rtsp_camera.py:231 | `split` gives at least one piece, and no piece contains a separator |
| Text.SplitAt | view_rtsp_camera.py:231 | the pieces of `a + sep + b` are the pieces of `a` followed by the pieces of `b` |
| Text.SplitNoSeparator | view_rtsp_camera.py:231 | text without a separator splits into itself alone |
| Text.SplitSnoc | view_rtsp_camera.py:231 | appending a non-separator character extends the last piece only |
| Text.SplitSameBreaks | view_rtsp_camera.py:108 | two separator sets that agree on the characters of the text split it the same way |
| Text.JoinSplit | view_rtsp_camera.py:231 | joining the pieces of `s.split(sep)` with `sep` gives back `s` |
| Text.SplitJoin | view_rtsp_camera.py:231 | splitting the join of separator-free pieces gives back the pieces |
| Text.DecimalString | view_rtsp_camera.py:113 | the rendering is all digits; it is a single digit exactly when the number is below 10, and a longer rendering has no leading zero |
| Text.DecimalRoundTrip | view_rtsp_camera.py:113 | reading the decimal digits back gives the number |
| Text.DecimalStringInjective | view_rtsp_camera.py:113 | different numbers have different renderings |
| CameraUrls.KeepNonBlank | view_rtsp_camera.py:108 | the comprehension keeps at most as many entries as there are lines, each non-empty and stripped |
| CameraUrls.KeepNonBlankAvoids | view_rtsp_camera.py:108 | an entry contains no character that no line contains |
| CameraUrls.ParseLines | view_rtsp_camera.py:108 | every parsed entry is non-empty, stripped and free of line breaks |
| CameraUrls.MockUrl | view_rtsp_camera.py:113 | made-up address `i` starts with `rtsp://camera`, ends with `.example.com/stream`, and between them has decimal digits with no leading zero that read back as `i + 1` |
| CameraUrls.MockUrls | view_rtsp_camera.py:112-115 | the fallback list has 16 entries, each a valid entry |
| CameraUrls.MockUrlIsEntry | view_rtsp_camera.py:113 | a made-up address is non-empty, stripped and one line |
| CameraUrls.ReadCameraUrls | view_rtsp_camera.py:105-115 | every entry read is valid; a missing file gives exactly 16 entries |
| CameraUrls.ParseUpload | view_rtsp_camera.py:231-232 | every entry of an upload is non-empty, stripped and free of `\n` |
| CameraUrls.ConfiguredUrls | view_rtsp_camera.py:230-234 | the list used is valid either way; with no upload and no file it has 16 entries |
| CameraUrls.KeepNonBlankAppend | view_rtsp_camera.py:108 | filtering two blocks of lines is filtering each block in turn |
| CameraUrls.ParseLinesAt | view_rtsp_camera.py:108 | the entries of `a + break + b` are the entries of `a` followed by those of `b`: line order is kept |
| CameraUrls.ParseSingleLine | view_rtsp_camera.py:108 | one line gives its stripped text, or nothing when it is blank |
| CameraUrls.ParseConsSpace | view_rtsp_camera.py:231-232 | leading whitespace, a line break included, changes no entry |
| CameraUrls.ParseSnocSpace | view_rtsp_camera.py:231-232 | trailing whitespace, a line break included, changes no entry |
| CameraUrls.ParseTrimLeft | view_rtsp_camera.py:231-232 | removing all leading whitespace changes no entry |
| CameraUrls.ParseTrimRight | view_rtsp_camera.py:231-232 | removing all trailing whitespace changes no entry |
| CameraUrls.UploadStripIsRedundant | view_rtsp_camera.py:231-232 | the `strip()` of the whole upload before `split('\n')` changes no entry |
| CameraUrls.UploadAgreesWithFile | view_rtsp_camera.py:230-234 | an upload without `\r` gives exactly the entries the same text gives as the configuration file |
| CameraUrls.MockList | view_rtsp_camera.py:112-115 | the fallback list is `rtsp://camera1.example.com/stream` to `rtsp://camera16.example.com/stream`, entry `i` naming camera `i + 1` |
| CameraUrls.MockUrlsDistinct | view_rtsp_camera.py:112-115 | the 16 made-up addresses are pairwise different |
| Paging.Cols | view_rtsp_camera.py:239-244 | every view mode has between 2 and 6 columns |
| Paging.CamerasPerPage | view_rtsp_camera.py:239-244 | every view mode shows a square grid: cameras per page is columns squared |
| Paging.TotalPages | view_rtsp_camera.py:254 | no cameras give 0 pages; otherwise the page count is the ceiling of cameras over page size |
| Paging.CurrentPage | view_rtsp_camera.py:257-264 | the page chosen exists when there is any page, and is page 0 when there is at most one |
| Paging.PageStart | view_rtsp_camera.py:311 | a page starts at a multiple of the page size, and that multiple is the page number |
| Paging.PageEnd | view_rtsp_camera.py:312 | a page ends at the end of the list or one page size after its start, whichever comes first |
| Paging.Slice | view_rtsp_camera.py:313 | Python slicing with non-negative bounds: in-range bounds give the plain slice, an end past the list is clamped to it, and a start at or past the end or the list gives nothing |
| Paging.PageCameras | view_rtsp_camera.py:313 | a page holds at most a page's worth of cameras, and its `j`-th camera is the camera at the page's start index plus `j` |
| Paging.PageBounds | view_rtsp_camera.py:311-312 | an existing page starts inside the list, is non-empty and holds at most a page's worth |
| Paging.PageCamerasAre | view_rtsp_camera.py:311-313 | the clamped slice of an existing page is exactly the cameras from its start to its end index |
| Paging.NoCamerasEmptyPage | view_rtsp_camera.py:254-264 | an empty list has no pages, and the page shown is empty |
| Paging.PageOf | view_rtsp_camera.py:311-313 | camera `i` is on the existing page `i / k`, and on no other page |
| Paging.PagesAdjacent | view_rtsp_camera.py:311-312 | each page ends where the next begins, and the last page ends at the end of the list |
| Paging.PagesPartition | view_rtsp_camera.py:311-313 | the pages read one after another give back the whole list, in order |
| Paging.PagesFromSuffix | view_rtsp_camera.py:311-313 | the pages from `p` on give the list from page `p`'s start index on |
| Paging.RowsNeeded | view_rtsp_camera.py:322 | `rows_needed` is the fewest rows of `cols` cells that hold the page's cameras |
| Paging.RowsAtMostCols | view_rtsp_camera.py:322 | at most `cols * cols` cameras need at most `cols` rows |
| Paging.RowsFitGrid | view_rtsp_camera.py:319-322 | a page of any view mode needs no more rows than the grid has columns |
| Paging.GridCells | view_rtsp_camera.py:324-378 | the grid loop shows each camera of the page once, in order, under its global index `start_idx + j`, and leaves fewer than `cols` empty cells, exactly the unused cells of the last row |
| Cameras.CameraLabel | view_rtsp_camera.py:122 | camera `idx`'s label is `Camera ` followed by decimal digits with no leading zero that read back as `idx + 1`, which is `str(idx + 1)` |
| Cameras.MockFrame | view_rtsp_camera.py:143-169 | a new placeholder pictures "NO SIGNAL" for the given name and carries no marks yet |
| Cameras.OverlaysFor | view_rtsp_camera.py:171-181 | a timestamp is drawn iff a frame is stored; the REC mark is drawn iff a frame is stored and the status is "connected"; nothing else is drawn: the marks are none, the timestamp alone, or the timestamp then the REC mark |
| Cameras.Observe | view_rtsp_camera.py:124-137 | one iteration gives "connected" iff the read succeeded; a captured frame gets the timestamp and REC mark; a failed read stores the camera's placeholder with one timestamp and no REC mark |
| Cameras.ObserveShows | view_rtsp_camera.py:124-137 | whatever is read, the stored status and frame agree |
| Cameras.CoherentSet | view_rtsp_camera.py:127-137 | writing one camera's status together with a frame that agrees with it keeps every camera's status and frame in agreement |
| Cameras.AfterPullsStep | view_rtsp_camera.py:124-137 | with the placeholder copied, after one more read only that read shows in the camera's status and frame, and earlier reads leave no trace |
| Cameras.PullsBeforeStop | view_rtsp_camera.py:124 | the loop performs at most one read per tick, and one per tick when no stop comes |
| Cameras.PullsBeforeStopAppend | view_rtsp_camera.py:124 | reads after the first stop request are never performed |
| Cameras.PullsBeforeStopStep | view_rtsp_camera.py:124-137 | before a stop, each read tick adds exactly its read; a stop tick ends the reads of the whole schedule |
| Cameras.FrameToBase64 | view_rtsp_camera.py:202-208 | no frame gives `None`; a frame gives `data:image/png;base64,` followed by its encoding, which can be read back off the result |
| Cameras.Worker.constructor | view_rtsp_camera.py:186-190 | a thread records the camera index and address it serves |
| Cameras.CameraManager.constructor | view_rtsp_camera.py:97-103 | a new manager has empty maps, which satisfy both manager invariants |
| Cameras.CameraManager.IsRunning | view_rtsp_camera.py:124 | `running.get(idx, False)`: a camera without a flag is not running; otherwise its flag decides |
| Cameras.CameraManager.StartCamera | view_rtsp_camera.py:183-191 | a running camera is left alone; otherwise it is marked running and gets a new thread for its address; status and frames are untouched |
| Cameras.CameraManager.StopCamera | view_rtsp_camera.py:193-196 | only the camera's flag changes, to false (created if absent); the last status, frame and thread stay |
| Cameras.CameraManager.StopAllCameras | view_rtsp_camera.py:198-200 | every camera that has a flag is stopped, no flag is added, and nothing else changes |
| Cameras.CameraManager.StartAll | view_rtsp_camera.py:271-273 | after "Start All" every camera `0 .. len(urls) - 1` that `enumerate` visits is running and no other flag changes; new threads go exactly to the listed cameras that were not running, with their own addresses; other threads are kept |
| Cameras.CameraManager.RefreshCamera | view_rtsp_camera.py:372-374 | a refresh always marks the camera running and installs a new thread for its address, even when it was running |
| Cameras.CameraManager.RefreshSelected | view_rtsp_camera.py:437-441 | the dialog refresh restarts the camera, with a new thread for its own index and address, when the list has a non-empty address for it; otherwise it leaves the camera stopped |
| Cameras.CameraManager.AddTimestampToFrame | view_rtsp_camera.py:171-181 | the stored frame gets exactly the marks `OverlaysFor` decides; nothing changes when no frame is stored |
| Cameras.CameraManager.CaptureStep | view_rtsp_camera.py:124-137 | one iteration (placeholder copied) writes the camera's status and frame as `Observe` says, touches no other camera, and keeps every stored frame consistent with its status |
| Cameras.CameraManager.CaptureStepSharedMock | view_rtsp_camera.py:122-137 | one iteration as written: a failed read stores the placeholder buffer itself, and the timestamp drawn on the stored frame is also drawn on that buffer |
| Cameras.CameraManager.CameraThread | view_rtsp_camera.py:117-141 | a loop started on a non-running camera does nothing; otherwise it performs exactly the reads before the first stop request, leaves status and frames as the last of them says, and writes nothing after the stop |
| Cameras.StartTwice | view_rtsp_camera.py:183-191 | calling `start_camera` twice leaves one thread: the second call keeps the thread of the first |
| Cameras.SharedMockAccumulates | view_rtsp_camera.py:122-137 | as written, two failed reads at seconds 1 and 2 show camera 1's placeholder with both timestamps |
| Cameras.CopiedMockShowsCurrentSecond | view_rtsp_camera.py:122-137 | with the placeholder copied, the same reads show only the timestamp of second 2 |

## Findings

| source | as written | input that shows it | evidently intended | confidence | as-written member | corrected member |
|---|---|---|---|---|---|---|
| view_rtsp_camera.py:122-137 | `mock_frame` is made once per thread. Every failed read stores that same array in `frames[idx]`, and `add_timestamp_to_frame` draws on it in place. The placeholder therefore keeps every earlier timestamp. | camera 0 not reachable, two failed reads at different seconds: the second frame shown carries both timestamps, drawn over each other | each shown placeholder carries only the current timestamp, e.g. by storing `mock_frame.copy()` | high; not executed | Cameras.CameraManager.CaptureStepSharedMock, Cameras.SharedMockAccumulates | Cameras.CameraManager.CaptureStep, Cameras.CopiedMockShowsCurrentSecond |

The capture loop `CameraThread` uses the corrected step. Its invariant `Coherent()` says
that every stored placeholder has exactly one timestamp.

## Left out

- The Streamlit page itself is not modelled: widgets, styling, the statistics panel, the detail dialog's text, and `st.rerun`. Only the arithmetic and the manager calls behind the buttons are modelled.
- Threads are not modelled as concurrent. `threading.Thread`, `start()` and `daemon` are reduced to a `Worker` object. Another thread's `stop_camera(idx)` reaches the loop only as a `StopRequest` tick between iterations.
- Cameras.CameraManager.StopCamera: does not model `join(timeout=1)`. When the join times out, the old loop can outlive a following `start_camera` for the same camera, and two loops then write the same entry. This interleaving is not modelled.
- Cameras.CameraManager.CameraThread: runs over a finite schedule of ticks, while the real loop runs until stopped. The `url` parameter is unused because opening the stream is not modelled: `cv2.VideoCapture`, `CAP_PROP_BUFFERSIZE` and `cap.release()`. The `time.sleep(0.033)` pacing is not modelled either.
- Cameras.Observe: models the iteration with the placeholder copied, so a failed read shows one timestamp. As written, `mock_frame` is made once (view_rtsp_camera.py:122) and stored itself on every failed read (view_rtsp_camera.py:133), so it keeps the timestamps of all earlier failed reads. The as-written iteration is `Cameras.CameraManager.CaptureStepSharedMock`; `Cameras.SharedMockAccumulates` shows the difference (see Findings).
- Cameras.AfterPullsStep: inherits `Observe`'s copied placeholder. As written (view_rtsp_camera.py:122, :133 and :174), an earlier failed read's timestamp stays on the shared placeholder, so earlier reads do leave a trace; `Cameras.SharedMockAccumulates` shows one.
- Cameras.CameraManager.CameraThread: runs the corrected step `CaptureStep`, with the placeholder copied, not the loop as written at view_rtsp_camera.py:122 and :133. As written, after two failed reads the placeholder carries both timestamps; here it carries only the last one. The as-written step is `Cameras.CameraManager.CaptureStepSharedMock`.
- OpenCV image content is left out. Captured frames are opaque tokens. `create_mock_frame`'s gradient, text sizes and positions become `NoSignal(label)`, and the drawn text and circle become `Timestamp` and `RecMarker` marks.
- The clock is a parameter. `datetime.now().strftime(...)` becomes a second count.
- Cameras.FrameToBase64: the PNG and base64 encoding are a parameter function. `cv2.imencode`'s success flag is ignored, as in the source.
- Cameras.CameraManager.StopAllCameras: stops the cameras in an unspecified order. The source uses dictionary insertion order, and the final state is the same either way.
- File access is reduced to the file's text, or `None` for `FileNotFoundError`. Opening the file, UTF-8 decoding, the upload's `.decode()`, and other I/O errors (which propagate in the source) are not modelled.
- The `cameras` and `frame_queues` fields are never used by the source and are not modelled.
- The `is_alive()` thread count, the connected/disconnected totals and the frame count are displays only, so they are not modelled.
- Paging.CurrentPage: the page selector's choice is a parameter, with the range the selector offers as its precondition.
- Cameras.CameraManager.AddTimestampToFrame, Cameras.CameraManager.CaptureStep and Cameras.CameraManager.CameraThread: the clash of a reader thread encoding a frame while the loop draws on it is a concurrency effect and is not modelled.
