/**
 * The bookkeeping of `CameraManager`: per-camera maps `running`, `status`, `frames` and
 * `threads`, the start / stop operations on them, one iteration of the capture loop run
 * by each camera's thread, and the overlay decision of `add_timestamp_to_frame`.
 *
 * Pixels are not modelled. A frame is its picture (a captured image, known only by an
 * opaque token, or the generated "NO SIGNAL" placeholder for a label) together with the
 * overlays drawn on it so far. A thread is an object recording the camera it serves.
 */
module Cameras {
  import opened Wrappers
  import Text

  /** The values the capture loop writes into `status`: "connected" / "disconnected". */
  datatype Status = Connected | Disconnected

  /** What a frame shows before annotation. */
  datatype Picture = Captured(token: nat) | NoSignal(name: string)

  /** Marks drawn on a frame: the `%Y-%m-%d %H:%M:%S` timestamp of a given second, or the
      red dot with "REC". */
  datatype Overlay = Timestamp(second: nat) | RecMarker

  datatype Frame = Frame(picture: Picture, overlays: seq<Overlay>)

  /** One `ret, frame = cap.read()` together with the second `datetime.now()` gives when
      the frame is annotated. `frame` is the token of the image read, `None` when the read
      returned no image. */
  datatype Pull = Pull(ret: bool, frame: Option<nat>, now: nat)

  /** What happens between two checks of the loop condition: a read, or a
      `stop_camera(idx)` issued by another thread. */
  datatype Tick = Read(pull: Pull) | StopRequest

  /** `f"Camera {idx+1}"` */
  function CameraLabel(idx: nat): (s: string)
    ensures |s| > 7 && s[..7] == "Camera " && s[7] != '0'
    ensures forall k :: 7 <= k < |s| ==> Text.IsDigit(s[k])
    ensures Text.DigitsValue(s[7..]) == idx + 1
  {
    var d := Text.DecimalString(idx + 1);
    Text.DecimalRoundTrip(idx + 1);
    var s := "Camera " + d;
    assert s[..7] == "Camera " && s[7..] == d;
    s
  }

  /** `create_mock_frame(camera_name)`: the gradient with the name and "NO SIGNAL". */
  function MockFrame(name: string): (f: Frame)
    ensures f.picture == NoSignal(name)
    ensures f.overlays == []
  {
    Frame(NoSignal(name), [])
  }

  /** The marks `add_timestamp_to_frame(idx)` draws, in drawing order. */
  function OverlaysFor(frames: map<nat, Option<Frame>>, status: map<nat, Status>, idx: nat, now: nat): (r: seq<Overlay>)
    ensures Timestamp(now) in r <==> idx in frames && frames[idx].Some?
    ensures RecMarker in r <==> idx in frames && frames[idx].Some? && idx in status && status[idx] == Connected
    ensures r == [] || r == [Timestamp(now)] || r == [Timestamp(now), RecMarker]
  {
    if idx in frames && frames[idx].Some? then
      [Timestamp(now)] + if idx in status && status[idx] == Connected then [RecMarker] else []
    else []
  }

  /** `f` with `marks` drawn over it. */
  function Annotate(f: Frame, marks: seq<Overlay>): Frame
  {
    Frame(f.picture, f.overlays + marks)
  }

  /** What one iteration of the capture loop leaves in `status[idx]` and `frames[idx]`. */
  datatype Observation = Observation(status: Status, frame: Option<Frame>)

  /** One iteration: classify the read, store the captured frame or the placeholder, then
      annotate what was stored. */
  function Observe(idx: nat, p: Pull): (o: Observation)
    ensures o.status == Connected <==> p.ret
    ensures p.ret ==> o.frame == match p.frame
                                 case None => None
                                 case Some(t) => Some(Frame(Captured(t), [Timestamp(p.now), RecMarker]))
    ensures !p.ret ==> o.frame == Some(Frame(NoSignal(CameraLabel(idx)), [Timestamp(p.now)]))
  {
    var st := if p.ret then Connected else Disconnected;
    var stored := if !p.ret then Some(MockFrame(CameraLabel(idx)))
                  else if p.frame.Some? then Some(Frame(Captured(p.frame.value), []))
                  else None;
    var marks := OverlaysFor(map[idx := stored], map[idx := st], idx, p.now);
    assert stored.Some? ==> marks == if p.ret then [Timestamp(p.now), RecMarker] else [Timestamp(p.now)];
    assert stored.Some? ==> stored.value.overlays + marks == marks;
    Observation(st, if stored.Some? then Some(Annotate(stored.value, marks)) else None)
  }

  /** The frame stored for camera `idx` agrees with its status: a connected camera shows
      its captured image (or nothing) with one timestamp and the REC mark, a disconnected
      one shows its own placeholder with one timestamp. */
  predicate Shows(idx: nat, s: Status, f: Option<Frame>)
  {
    match s
    case Connected =>
      f.None? || (f.value.picture.Captured? && |f.value.overlays| == 2
                  && f.value.overlays[0].Timestamp? && f.value.overlays[1] == RecMarker)
    case Disconnected =>
      f.Some? && f.value.picture == NoSignal(CameraLabel(idx))
      && |f.value.overlays| == 1 && f.value.overlays[0].Timestamp?
  }

  /** Every camera with a status has a frame entry and the other way round, and each
      stored frame agrees with its camera's status. */
  ghost predicate CoherentMaps(status: map<nat, Status>, frames: map<nat, Option<Frame>>)
  {
    status.Keys == frames.Keys
    && forall i :: i in status ==> Shows(i, status[i], frames[i])
  }

  /** Writing an agreeing status and frame for one camera keeps the maps coherent. */
  lemma CoherentSet(status: map<nat, Status>, frames: map<nat, Option<Frame>>, idx: nat, s: Status, f: Option<Frame>)
    requires CoherentMaps(status, frames) && Shows(idx, s, f)
    ensures CoherentMaps(status[idx := s], frames[idx := f])
  {
  }

  /** Whatever was read, an iteration leaves a status and a frame that agree. */
  lemma ObserveShows(idx: nat, p: Pull)
    ensures Shows(idx, Observe(idx, p).status, Observe(idx, p).frame)
  {
  }

  /** The reads the loop performs before the first stop request. */
  function PullsBeforeStop(ticks: seq<Tick>): (r: seq<Pull>)
    ensures |r| <= |ticks|
    ensures StopRequest !in ticks ==> |r| == |ticks|
  {
    if ticks == [] then []
    else match ticks[0]
      case StopRequest => []
      case Read(p) => [p] + PullsBeforeStop(ticks[1..])
  }

  /** A schedule's reads before its first stop come from its first part, and from its
      second part only when the first holds no stop. */
  lemma {:induction false} PullsBeforeStopAppend(a: seq<Tick>, b: seq<Tick>)
    ensures PullsBeforeStop(a + b)
            == if StopRequest in a then PullsBeforeStop(a) else PullsBeforeStop(a) + PullsBeforeStop(b)
  {
    if a == [] {
      assert a + b == b;
    } else {
      assert (a + b)[0] == a[0];
      assert (a + b)[1..] == a[1..] + b;
      PullsBeforeStopAppend(a[1..], b);
      assert StopRequest in a <==> a[0] == StopRequest || StopRequest in a[1..];
    }
  }

  /** `status` and `frames` are `s0` and `f0` after the reads `done` of camera `idx`:
      unchanged when there were none, otherwise what the last read left. */
  ghost predicate AfterPulls(s0: map<nat, Status>, f0: map<nat, Option<Frame>>, idx: nat, done: seq<Pull>,
                             status: map<nat, Status>, frames: map<nat, Option<Frame>>)
  {
    if done == [] then status == s0 && frames == f0
    else
      var o := Observe(idx, done[|done| - 1]);
      status == s0[idx := o.status] && frames == f0[idx := o.frame]
  }

  /** One more read moves the state after `done` to the state after `done + [p]`: only the
      last read of camera `idx` shows. */
  lemma AfterPullsStep(s0: map<nat, Status>, f0: map<nat, Option<Frame>>, idx: nat, done: seq<Pull>, p: Pull,
                       status: map<nat, Status>, frames: map<nat, Option<Frame>>)
    requires AfterPulls(s0, f0, idx, done, status, frames)
    ensures AfterPulls(s0, f0, idx, done + [p], status[idx := Observe(idx, p).status],
                       frames[idx := Observe(idx, p).frame])
  {
    var d := done + [p];
    assert d != [] && d[|d| - 1] == p;
    var o := Observe(idx, p);
    if done != [] {
      var o' := Observe(idx, done[|done| - 1]);
      UpdateTwice(s0, idx, o'.status, o.status);
      UpdateTwice(f0, idx, o'.frame, o.frame);
    }
  }

  /** A second write to the same key overrides the first. */
  lemma UpdateTwice<V>(m: map<nat, V>, k: nat, a: V, b: V)
    ensures m[k := a][k := b] == m[k := b]
  {
    assert m[k := a][k := b].Keys == m[k := b].Keys;
  }

  /** One more tick of a schedule that has not stopped yet. */
  lemma PullsBeforeStopStep(ticks: seq<Tick>, i: nat)
    requires i < |ticks| && StopRequest !in ticks[..i]
    ensures StopRequest in ticks[..i + 1] <==> ticks[i] == StopRequest
    ensures ticks[i].Read? ==> PullsBeforeStop(ticks[..i + 1]) == PullsBeforeStop(ticks[..i]) + [ticks[i].pull]
    ensures ticks[i] == StopRequest ==>
              PullsBeforeStop(ticks[..i + 1]) == PullsBeforeStop(ticks) == PullsBeforeStop(ticks[..i])
  {
    var pre, t := ticks[..i], ticks[i];
    assert ticks[..i + 1] == pre + [t];
    assert PullsBeforeStop(pre + [t]) == PullsBeforeStop(pre) + PullsBeforeStop([t]) by {
      PullsBeforeStopAppend(pre, [t]);
    }
    assert PullsBeforeStop(ticks) == PullsBeforeStop(pre) + PullsBeforeStop(ticks[i..]) by {
      assert ticks == pre + ticks[i..];
      PullsBeforeStopAppend(pre, ticks[i..]);
    }
    assert ticks[i..][0] == t;
    if t.Read? {
      assert [t][1..] == [];
    }
  }

  /** The data URI prefix `frame_to_base64` puts in front of the base64 text. */
  const PngDataUriPrefix: string := "data:image/png;base64,"

  /** `frame_to_base64(frame)`: `None` for no frame, otherwise a PNG data URI whose payload
      is `encode(frame)` (the PNG and base64 encoders are a parameter). */
  function FrameToBase64(frame: Option<Frame>, encode: Frame -> string): (r: Option<string>)
    ensures r.None? <==> frame.None?
    ensures r.Some? ==> |PngDataUriPrefix| <= |r.value|
                        && r.value[..|PngDataUriPrefix|] == PngDataUriPrefix
                        && r.value[|PngDataUriPrefix|..] == encode(frame.value)
  {
    if frame.None? then None else Some(PngDataUriPrefix + encode(frame.value))
  }

  /** A `threading.Thread` created by `start_camera`, with the arguments of its target. */
  class Worker {
    const idx: nat
    const url: string

    constructor (idx: nat, url: string)
      ensures this.idx == idx && this.url == url
    {
      this.idx := idx;
      this.url := url;
    }
  }

  class CameraManager {
    var frames: map<nat, Option<Frame>>
    var status: map<nat, Status>
    var threads: map<nat, Worker>
    var running: map<nat, bool>

    constructor ()
      ensures frames == map[] && status == map[] && threads == map[] && running == map[]
      ensures Coherent() && Tracked()
    {
      frames, status, threads, running := map[], map[], map[], map[];
    }

    /** `self.running.get(idx, False)` */
    predicate IsRunning(idx: nat): (b: bool)
      reads this
      ensures idx !in running ==> !b
      ensures idx in running ==> (b <==> running[idx])
    {
      idx in running && running[idx]
    }

    /** Status and frames are written together, and every stored frame agrees with its
        camera's status. */
    ghost predicate Coherent()
      reads this
    {
      CoherentMaps(status, frames)
    }

    /** Every camera flagged as running has a thread object: `start_camera` sets both
        together and nothing removes a thread. */
    ghost predicate Tracked()
      reads this
    {
      forall i :: IsRunning(i) ==> i in threads
    }

    /** `start_camera(idx, url)`: nothing happens when the camera is already running;
        otherwise it is marked running and a new thread for it replaces any old one. */
    method StartCamera(idx: nat, url: string)
      modifies this
      ensures old(IsRunning(idx)) ==> running == old(running) && threads == old(threads)
      ensures !old(IsRunning(idx)) ==>
                && running == old(running)[idx := true]
                && idx in threads && fresh(threads[idx])
                && threads[idx].idx == idx && threads[idx].url == url
                && threads == old(threads)[idx := threads[idx]]
      ensures status == old(status) && frames == old(frames)
      ensures old(Tracked()) ==> Tracked()
    {
      if idx !in running || !running[idx] {
        running := running[idx := true];
        var t := new Worker(idx, url);
        threads := threads[idx := t];
      }
    }

    /** `stop_camera(idx)`: clears the flag (creating it when absent) and leaves the last
        status and frame in place. */
    method StopCamera(idx: nat)
      modifies this
      ensures running == old(running)[idx := false]
      ensures threads == old(threads) && status == old(status) && frames == old(frames)
      ensures old(Tracked()) ==> Tracked()
    {
      running := running[idx := false];
    }

    /** `stop_all_cameras()`: stops every camera that has a flag, over a snapshot of the keys. */
    method StopAllCameras()
      modifies this
      ensures running == map i | i in old(running) :: false
      ensures threads == old(threads) && status == old(status) && frames == old(frames)
      ensures old(Tracked()) ==> Tracked()
    {
      var keys := running.Keys;
      var todo := keys;
      while todo != {}
        invariant todo <= keys && running.Keys == keys
        invariant forall i :: i in todo ==> running[i] == old(running)[i]
        invariant forall i :: i in keys && i !in todo ==> !running[i]
        invariant threads == old(threads) && status == old(status) && frames == old(frames)
        invariant old(Tracked()) ==> Tracked()
        decreases todo
      {
        var i :| i in todo;
        StopCamera(i);
        todo := todo - {i};
      }
    }

    /** The "Start All" button: `start_camera(idx, url)` for every entry of the list.
        `started` holds the cameras that were not running and got a new thread. */
    method StartAll(urls: seq<string>) returns (ghost started: set<nat>)
      modifies this
      ensures forall i: nat :: i in started <==> i < |urls| && !old(IsRunning(i))
      ensures forall i: nat :: i in running <==> i in old(running) || i < |urls|
      ensures forall i: nat :: i in running ==> running[i] == (i < |urls| || old(running)[i])
      ensures forall i: nat :: i in threads <==> i in old(threads) || i in started
      ensures forall i: nat :: i in started ==>
                fresh(threads[i]) && threads[i].idx == i && threads[i].url == urls[i]
      ensures forall i: nat :: i in old(threads) && i !in started ==> threads[i] == old(threads)[i]
      ensures status == old(status) && frames == old(frames)
    {
      ghost var r0 := running;
      started := {};
      var k := 0;
      while k < |urls|
        invariant k <= |urls|
        invariant forall i: nat :: i in started <==> i < k && !(i in r0 && r0[i])
        invariant forall i: nat :: i in running <==> i in r0 || i < k
        invariant forall i: nat :: i in running ==> running[i] == (i < k || r0[i])
        invariant forall i: nat :: i in threads <==> i in old(threads) || i in started
        invariant forall i: nat :: i in started ==>
                    fresh(threads[i]) && threads[i].idx == i && threads[i].url == urls[i]
        invariant forall i: nat :: i in old(threads) && i !in started ==> threads[i] == old(threads)[i]
        invariant status == old(status) && frames == old(frames)
      {
        var wasRunning := IsRunning(k);
        StartCamera(k, urls[k]);
        if !wasRunning {
          started := started + {k};
        }
        k := k + 1;
      }
    }

    /** The refresh button of a grid cell: `stop_camera` then `start_camera`, which always
        installs a new thread, even while the old one may still be running. */
    method RefreshCamera(idx: nat, url: string)
      modifies this
      ensures running == old(running)[idx := true]
      ensures idx in threads && fresh(threads[idx]) && threads[idx].idx == idx && threads[idx].url == url
      ensures threads == old(threads)[idx := threads[idx]]
      ensures status == old(status) && frames == old(frames)
    {
      StopCamera(idx);
      StartCamera(idx, url);
    }

    /** The "Refresh Camera" button of the detail dialog: stops the camera and restarts it
        only when the list has an address for it. */
    method RefreshSelected(idx: nat, urls: seq<string>)
      modifies this
      ensures idx < |urls| && urls[idx] != "" ==>
                running == old(running)[idx := true]
                && idx in threads && fresh(threads[idx])
                && threads[idx].idx == idx && threads[idx].url == urls[idx]
                && threads == old(threads)[idx := threads[idx]]
      ensures !(idx < |urls| && urls[idx] != "") ==>
                running == old(running)[idx := false] && threads == old(threads)
      ensures status == old(status) && frames == old(frames)
    {
      StopCamera(idx);
      var url := if idx < |urls| then urls[idx] else "";
      if url != "" {
        StartCamera(idx, url);
      }
    }

    /** `add_timestamp_to_frame(idx)`: draws the marks `OverlaysFor` decides on the stored
        frame, in place; changes nothing when there is no frame. */
    method AddTimestampToFrame(idx: nat, now: nat)
      modifies this
      ensures frames == if idx in old(frames) && old(frames)[idx].Some?
                        then old(frames)[idx := Some(Annotate(old(frames)[idx].value,
                                                              OverlaysFor(old(frames), old(status), idx, now)))]
                        else old(frames)
      ensures status == old(status) && running == old(running) && threads == old(threads)
    {
      if idx in frames && frames[idx].Some? {
        var f := frames[idx].value;
        var marks := [Timestamp(now)];
        if idx in status && status[idx] == Connected {
          marks := marks + [RecMarker];
        }
        assert marks == OverlaysFor(frames, status, idx, now);
        frames := frames[idx := Some(Frame(f.picture, f.overlays + marks))];
      }
    }

    /** One iteration of the `camera_thread` loop, with the placeholder copied before it is
        annotated (`mock` is the placeholder the thread made before its loop). */
    method CaptureStep(idx: nat, p: Pull, mock: Frame)
      requires mock == MockFrame(CameraLabel(idx))
      requires Coherent()
      modifies this
      ensures Coherent()
      ensures status == old(status)[idx := Observe(idx, p).status]
      ensures frames == old(frames)[idx := Observe(idx, p).frame]
      ensures running == old(running) && threads == old(threads)
    {
      ghost var o := Observe(idx, p);
      assert CoherentMaps(status[idx := o.status], frames[idx := o.frame]) by {
        ObserveShows(idx, p);
        CoherentSet(status, frames, idx, o.status, o.frame);
      }
      if p.ret {
        status := status[idx := Connected];
        frames := frames[idx := if p.frame.Some? then Some(Frame(Captured(p.frame.value), [])) else None];
        assert p.frame.Some? ==> OverlaysFor(frames, status, idx, p.now) == [Timestamp(p.now), RecMarker];
        if idx in frames {
          AddTimestampToFrame(idx, p.now);
        }
        assert frames[idx] == o.frame;
      } else {
        status := status[idx := Disconnected];
        frames := frames[idx := Some(mock)];
        assert OverlaysFor(frames, status, idx, p.now) == [Timestamp(p.now)];
        if idx in frames {
          AddTimestampToFrame(idx, p.now);
        }
        assert frames[idx] == o.frame;
      }
    }

    /** One iteration of the `camera_thread` loop as written: on a failed read the stored
        frame IS the thread's placeholder buffer, so annotating it in place also annotates
        the placeholder that later iterations store again. Returns the placeholder after
        the iteration. */
    method CaptureStepSharedMock(idx: nat, p: Pull, mock: Frame) returns (mockAfter: Frame)
      modifies this
      ensures status == old(status)[idx := if p.ret then Connected else Disconnected]
      ensures p.ret ==> mockAfter == mock && frames == old(frames)[idx := Observe(idx, p).frame]
      ensures !p.ret ==> mockAfter == Annotate(mock, [Timestamp(p.now)])
                         && frames == old(frames)[idx := Some(mockAfter)]
      ensures running == old(running) && threads == old(threads)
    {
      if p.ret {
        status := status[idx := Connected];
        frames := frames[idx := if p.frame.Some? then Some(Frame(Captured(p.frame.value), [])) else None];
        assert p.frame.Some? ==> OverlaysFor(frames, status, idx, p.now) == [Timestamp(p.now), RecMarker];
        if idx in frames {
          AddTimestampToFrame(idx, p.now);
        }
        mockAfter := mock;
      } else {
        status := status[idx := Disconnected];
        frames := frames[idx := Some(mock)];
        assert OverlaysFor(frames, status, idx, p.now) == [Timestamp(p.now)];
        if idx in frames {
          AddTimestampToFrame(idx, p.now);
        }
        mockAfter := frames[idx].value;
      }
    }

    /** `camera_thread(idx, url)` over a finite schedule: while `running.get(idx, False)`
        holds it performs the next read, or lets another thread's `stop_camera(idx)`
        through. Returns the number of iterations run. */
    method CameraThread(idx: nat, url: string, ticks: seq<Tick>) returns (iterations: nat)
      requires Coherent()
      modifies this
      ensures Coherent()
      ensures iterations == if old(IsRunning(idx)) then |PullsBeforeStop(ticks)| else 0
      ensures AfterPulls(old(status), old(frames), idx, PullsBeforeStop(ticks)[..iterations], status, frames)
      ensures running == if old(IsRunning(idx)) && StopRequest in ticks
                         then old(running)[idx := false] else old(running)
      ensures threads == old(threads)
    {
      var mock := MockFrame(CameraLabel(idx));
      ghost var s0, f0, r0 := status, frames, running;
      ghost var wasRunning := IsRunning(idx);
      ghost var done: seq<Pull> := [];
      ghost var stopped := false;
      var i := 0;
      iterations := 0;
      while IsRunning(idx) && i < |ticks|
        invariant i <= |ticks|
        invariant Coherent() && threads == old(threads)
        invariant !wasRunning ==> i == 0
        invariant stopped == (StopRequest in ticks[..i])
        invariant done == PullsBeforeStop(ticks[..i]) && iterations == |done|
        invariant running == if stopped then r0[idx := false] else r0
        invariant stopped ==> PullsBeforeStop(ticks) == done
        invariant AfterPulls(s0, f0, idx, done, status, frames)
      {
        PullsBeforeStopStep(ticks, i);
        if ticks[i] == StopRequest {
          StopCamera(idx);
          stopped := true;
        } else {
          var p := ticks[i].pull;
          AfterPullsStep(s0, f0, idx, done, p, status, frames);
          CaptureStep(idx, p, mock);
          done := done + [p];
          iterations := iterations + 1;
        }
        i := i + 1;
      }
      if i == |ticks| {
        assert ticks[..i] == ticks;
      }
      assert PullsBeforeStop(ticks)[..iterations] == done;
    }
  }

  /** `start_camera(idx, url)` twice in a row leaves one thread for `idx`: the second call
      keeps the thread the first one installed (or found). */
  method StartTwice(m: CameraManager, idx: nat, url: string) returns (first: Worker, second: Worker)
    requires m.Tracked()
    modifies m
    ensures first == second
    ensures m.IsRunning(idx) && idx in m.threads && m.threads[idx] == second
    ensures old(m.IsRunning(idx)) ==> m.threads == old(m.threads)
    ensures !old(m.IsRunning(idx)) ==> fresh(first) && m.threads == old(m.threads)[idx := first]
    ensures m.status == old(m.status) && m.frames == old(m.frames)
  {
    m.StartCamera(idx, url);
    first := m.threads[idx];
    m.StartCamera(idx, url);
    second := m.threads[idx];
  }

  /** Two failed reads in a row, as written: the second frame shown carries the first
      iteration's timestamp as well as its own. */
  method SharedMockAccumulates() returns (shown: Frame)
    ensures shown.picture == NoSignal("Camera 1")
    ensures shown.overlays == [Timestamp(1), Timestamp(2)]
  {
    var m := new CameraManager();
    var mock := MockFrame(CameraLabel(0));
    mock := m.CaptureStepSharedMock(0, Pull(false, None, 1), mock);
    mock := m.CaptureStepSharedMock(0, Pull(false, None, 2), mock);
    shown := m.frames[0].value;
  }

  /** The same two failed reads with the placeholder copied: the frame shown carries only
      the current second. */
  method CopiedMockShowsCurrentSecond() returns (shown: Frame)
    ensures shown == Frame(NoSignal("Camera 1"), [Timestamp(2)])
  {
    var m := new CameraManager();
    var mock := MockFrame(CameraLabel(0));
    m.CaptureStep(0, Pull(false, None, 1), mock);
    m.CaptureStep(0, Pull(false, None, 2), mock);
    shown := m.frames[0].value;
  }
}
