/**
 * The capture device of lib/v4l2.c: choosing and opening the video device,
 * negotiating the MJPEG format, switching on automatic exposure, and the
 * life cycle of the pool of memory-mapped buffers (request, map, queue,
 * stream on, dequeue and requeue one frame at a time, stream off, unmap).
 *
 * The kernel is an oracle: every stat, open, ioctl and mmap result is a
 * parameter, and a fatal `exit` is a `Fail`/`Err` outcome. The requests that
 * move buffers between the program and the driver are recorded in the ghost
 * `log`, so that contracts can say which buffer went back and in what order.
 */
module V4l2 {
  import opened Common

  // Constants of lib/v4l2.h.
  const BuffersMaxCount: nat := 2
  const DefaultCaptureWidth: int := 640
  const DefaultCaptureHeight: int := 480
  const DefaultDevicePrefix: string := "/dev/video"
  const DefaultDeviceTemplateLength: nat := 11
  const DefaultDeviceMaxNum: nat := 10
  const DeviceNameMaxLen: nat := 64

  // Constants of the Video4Linux2 interface.
  const PixFmtMjpeg: int := 0x47504A4D // v4l2_fourcc('M', 'J', 'P', 'G')
  const FieldNone: int := 1
  const ExposureAuto: int := 0
  const ExposureManual: int := 1
  const ExposureShutterPriority: int := 2
  const ExposureAperturePriority: int := 3

  /** The automatic exposure modes, in the order they are tried. */
  const AutoExposureTypes: seq<int> := [ExposureAuto, ExposureShutterPriority, ExposureAperturePriority]

  /** The diagnostics after which the program exits with a failure status. */
  datatype Fatal =
    | NoDefaultDevice          // none of /dev/video0 .. /dev/video9 exists
    | CannotIdentify           // stat of the given path failed
    | NotADevice               // the path is not a character device
    | CannotOpen
    | NameTooLong
    | NotV4l2Device            // VIDIOC_QUERYCAP failed with EINVAL
    | QueryCapFailed
    | NoVideoCapture
    | NoStreamingIo
    | GetFormatFailed
    | FormatUnsupported        // VIDIOC_S_FMT refused MJPEG
    | QueryCtrlFailed
    | GetCtrlFailed
    | NoMemoryMapping          // VIDIOC_REQBUFS failed with EINVAL
    | ReqBufsFailed
    | InsufficientBufferMemory // the driver granted no buffer
    | QueryBufFailed
    | MmapFailed
    | DqBufFailed
    | BufferIndexOutOfRange    // the assertion on the dequeued index
    | QBufFailed
    | StreamOnFailed
    | StreamOffFailed
    | MunmapFailed
    | CloseFailed

  // Replies of the kernel.
  datatype StatReply = StatFailed | Stat(isCharDevice: bool)
  datatype CapReply = CapFailed(einval: bool) | Capabilities(videoCapture: bool, streaming: bool)
  datatype FormatRequest = FormatRequest(width: int, height: int, pixelFormat: int, field: int)
  datatype FormatReply = FormatRejected | FormatAccepted(width: int, height: int)
  datatype CtrlQuery = CtrlAbsent | CtrlQueryFailed | CtrlPresent
  datatype ReqBufsReply = ReqBufsRejected(einval: bool) | Granted(count: nat)
  datatype BufInfo = BufInfo(length: nat, offset: nat)
  /** The outcome of VIDIOC_DQBUF once the retries on EAGAIN are over. */
  datatype DqReply = DqFailed | Dequeued(index: nat)

  /** One entry of `struct buffers`: where a buffer is mapped and how long it is. */
  datatype MappedBuffer = MappedBuffer(start: nat, length: nat)

  /** The requests that hand buffers to the driver and take them back. */
  datatype Request = QBuf(index: nat) | DQBuf | StreamOn | StreamOff | Munmap(buffer: MappedBuffer) | Close

  /** What the JPEG decompressor produces from one frame: `height` rows of `width * components` bytes. */
  datatype DecodedImage = DecodedImage(width: nat, height: nat, components: nat, rows: seq<seq<uint8>>)

  predicate WellFormed(image: DecodedImage) {
    |image.rows| == image.height &&
    forall k :: 0 <= k < |image.rows| ==> |image.rows[k]| == image.width * image.components
  }

  // ---------------------------------------------------------------- device choice

  /** The default device name with index i: "/dev/video" followed by the digit. */
  function Candidate(i: nat): (path: string)
    requires i < DefaultDeviceMaxNum
    ensures |path| == DefaultDeviceTemplateLength
    ensures path[..|DefaultDevicePrefix|] == DefaultDevicePrefix
    ensures path[|DefaultDevicePrefix|] == ('0' as int + i) as char
  {
    DefaultDevicePrefix + [('0' as int + i) as char]
  }

  /** Different indexes give different names. */
  lemma CandidatesDistinct(i: nat, j: nat)
    requires i < DefaultDeviceMaxNum && j < DefaultDeviceMaxNum && i != j
    ensures Candidate(i) != Candidate(j)
  {
    assert Candidate(i)[10] != Candidate(j)[10];
  }

  /** The index of the first default device, from index `from` on, whose stat succeeds. */
  function FirstCandidate(stat: string -> StatReply, from: nat): (k: Option<nat>)
    requires from <= DefaultDeviceMaxNum
    ensures k.Some? ==> from <= k.value < DefaultDeviceMaxNum && stat(Candidate(k.value)).Stat?
    ensures k.Some? ==> forall j :: from <= j < k.value ==> stat(Candidate(j)).StatFailed?
    ensures k.None? ==> forall j :: from <= j < DefaultDeviceMaxNum ==> stat(Candidate(j)).StatFailed?
    decreases DefaultDeviceMaxNum - from
  {
    if from == DefaultDeviceMaxNum then None
    else if stat(Candidate(from)).Stat? then Some(from)
    else FirstCandidate(stat, from + 1)
  }

  /**
   * The probing loop of `open_device`: stats /dev/video0, /dev/video1, ... in
   * increasing order and stops at the first that exists.
   */
  method ProbeDefaultDevice(stat: string -> StatReply) returns (found: Option<nat>, probed: seq<string>)
    ensures found == FirstCandidate(stat, 0)
    ensures |probed| == (if found.Some? then found.value + 1 else DefaultDeviceMaxNum)
    ensures forall j :: 0 <= j < |probed| ==> probed[j] == Candidate(j)
  {
    found := None;
    probed := [];
    var i := 0;
    while i < DefaultDeviceMaxNum
      invariant 0 <= i <= DefaultDeviceMaxNum && |probed| == i
      invariant forall j :: 0 <= j < i ==> probed[j] == Candidate(j) && stat(Candidate(j)).StatFailed?
    {
      var name := Candidate(i);
      probed := probed + [name];
      if stat(name).Stat? {
        found := Some(i);
        return;
      }
      i := i + 1;
    }
  }

  /** The path `open_device` settles on and stores, or the diagnostic it exits with. */
  function OpenOutcome(name: Option<string>, stat: string -> StatReply, openFd: int): Result<string, Fatal> {
    var chosen :=
      match name
      case Some(p) => if stat(p).Stat? then Ok(p) else Err(CannotIdentify)
      case None =>
        match FirstCandidate(stat, 0)
        case Some(k) => Ok(Candidate(k))
        case None => Err(NoDefaultDevice);
    match chosen
    case Err(e) => Err(e)
    case Ok(path) =>
      if !stat(path).isCharDevice then Err(NotADevice)
      else if openFd == -1 then Err(CannotOpen)
      else if |path| + 1 >= DeviceNameMaxLen then Err(NameTooLong)
      else Ok(path)
  }

  /**
   * What opening promises: an explicit path is used as given and a missing
   * one is fatal; without a path the first existing default device is used and
   * none existing is fatal; the path kept is a character device that opened,
   * whose name with its terminator fits the 64-byte buffer, counting one
   * byte per character.
   */
  lemma OpenOutcomeSpec(name: Option<string>, stat: string -> StatReply, openFd: int)
    ensures var r := OpenOutcome(name, stat, openFd);
      && (name.Some? && stat(name.value).StatFailed? ==> r == Err(CannotIdentify))
      && (name.None? && (forall j :: 0 <= j < DefaultDeviceMaxNum ==> stat(Candidate(j)).StatFailed?) ==> r == Err(NoDefaultDevice))
      && (r.Ok? ==> stat(r.value) == Stat(true) && openFd != -1 && |r.value| + 1 < DeviceNameMaxLen)
      && (r.Ok? && name.Some? ==> r.value == name.value)
      && (r.Ok? && name.None? ==> exists k :: 0 <= k < DefaultDeviceMaxNum && r.value == Candidate(k) &&
                                   forall j :: 0 <= j < k ==> stat(Candidate(j)).StatFailed?)
  {
    var r := OpenOutcome(name, stat, openFd);
    if r.Ok? && name.None? {
      var k := FirstCandidate(stat, 0).value;
      assert r.value == Candidate(k);
    }
  }

  /** A default device name (11 characters) always passes the length guard. */
  lemma DefaultNameFits(stat: string -> StatReply, openFd: int)
    ensures OpenOutcome(None, stat, openFd) != Err(NameTooLong)
  {
    match FirstCandidate(stat, 0)
    case Some(k) =>
      assert |Candidate(k)| + 1 < DeviceNameMaxLen;
    case None =>
  }

  // ---------------------------------------------------------------- auto exposure

  /** The index of the first mode the device accepts, or |modes| when it accepts none. */
  function FirstAccepted(modes: seq<int>, accepts: int -> bool): (k: nat)
    ensures k <= |modes|
    ensures k < |modes| ==> accepts(modes[k])
    ensures forall j :: 0 <= j < k ==> !accepts(modes[j])
  {
    if modes == [] then 0
    else if accepts(modes[0]) then 0
    else 1 + FirstAccepted(modes[1..], accepts)
  }

  /**
   * The value `init_device` returns for automatic exposure: the control's query
   * reply, its current value (None when VIDIOC_G_CTRL fails) and which modes
   * VIDIOC_S_CTRL accepts decide it.
   */
  function AutoExposure(query: CtrlQuery, current: Option<int>, accepts: int -> bool): Result<bool, Fatal> {
    match query
    case CtrlAbsent => Ok(false)
    case CtrlQueryFailed => Err(QueryCtrlFailed)
    case CtrlPresent =>
      match current
      case None => Err(GetCtrlFailed)
      case Some(v) =>
        if v != ExposureManual then Ok(true)
        else Ok(FirstAccepted(AutoExposureTypes, accepts) < |AutoExposureTypes|)
  }

  /**
   * Automatic exposure ends up on exactly when the control exists and is
   * either already automatic or accepts one of the three automatic modes.
   */
  lemma AutoExposureOnIff(query: CtrlQuery, current: Option<int>, accepts: int -> bool)
    ensures AutoExposure(query, current, accepts) == Ok(true) <==>
      query == CtrlPresent && current.Some? &&
      (current.value != ExposureManual || exists i :: 0 <= i < |AutoExposureTypes| && accepts(AutoExposureTypes[i]))
    ensures AutoExposure(query, current, accepts) == Ok(false) <==>
      query == CtrlAbsent ||
      (query == CtrlPresent && current == Some(ExposureManual) &&
       forall i :: 0 <= i < |AutoExposureTypes| ==> !accepts(AutoExposureTypes[i]))
  {
    var k := FirstAccepted(AutoExposureTypes, accepts);
    if exists i :: 0 <= i < |AutoExposureTypes| && accepts(AutoExposureTypes[i]) {
      var i :| 0 <= i < |AutoExposureTypes| && accepts(AutoExposureTypes[i]);
      assert k <= i;
    }
  }

  /**
   * The exposure part of `init_device`: when the control is in manual mode, set
   * AUTO, SHUTTER_PRIORITY and APERTURE_PRIORITY in that order until the device
   * accepts one. `attempts` lists the modes sent with VIDIOC_S_CTRL.
   */
  method EnableAutoExposure(query: CtrlQuery, current: Option<int>, accepts: int -> bool)
    returns (r: Result<bool, Fatal>, attempts: seq<int>)
    ensures r == AutoExposure(query, current, accepts)
    ensures query == CtrlPresent && current == Some(ExposureManual) ==>
      var k := FirstAccepted(AutoExposureTypes, accepts);
      attempts == AutoExposureTypes[..if k < |AutoExposureTypes| then k + 1 else k]
    ensures !(query == CtrlPresent && current == Some(ExposureManual)) ==> attempts == []
  {
    attempts := [];
    match query {
      case CtrlAbsent =>
        r := Ok(false);
      case CtrlQueryFailed =>
        r := Err(QueryCtrlFailed);
      case CtrlPresent =>
        if current.None? {
          r := Err(GetCtrlFailed);
        } else if current.value != ExposureManual {
          r := Ok(true);
        } else {
          var on := false;
          var i := 0;
          while i < |AutoExposureTypes|
            invariant 0 <= i <= |AutoExposureTypes|
            invariant attempts == AutoExposureTypes[..i]
            invariant forall j :: 0 <= j < i ==> !accepts(AutoExposureTypes[j])
            invariant !on
          {
            var mode := AutoExposureTypes[i];
            attempts := attempts + [mode];
            if accepts(mode) {
              on := true;
              break;
            }
            i := i + 1;
          }
          assert on ==> FirstAccepted(AutoExposureTypes, accepts) == i;
          assert !on ==> FirstAccepted(AutoExposureTypes, accepts) == |AutoExposureTypes|;
          r := Ok(on);
        }
    }
  }

  // ---------------------------------------------------------------- frame layout

  /**
   * Row k of the decoded image occupies bytes [k * rowBytes, (k + 1) * rowBytes)
   * of the frame, and the rows fill height * rowBytes bytes.
   */
  lemma FrameLayout(image: DecodedImage, k: nat, j: nat)
    requires WellFormed(image)
    requires k < image.height && j < image.width * image.components
    ensures |Concat(image.rows)| == image.height * (image.width * image.components)
    ensures Concat(image.rows)[k * (image.width * image.components) + j] == image.rows[k][j]
  {
    ConcatLength(image.rows, image.width * image.components);
    ConcatAt(image.rows, image.width * image.components, k, j);
  }

  /**
   * The scanline loop of `read_frame`: each decoded row is copied to the
   * frame right after the previous one.
   */
  method CopyScanlines(image: DecodedImage, frame: array<uint8>)
    requires WellFormed(image)
    requires image.height * (image.width * image.components) <= frame.Length
    modifies frame
    ensures frame[..image.height * (image.width * image.components)] == Concat(image.rows)
    ensures forall i :: image.height * (image.width * image.components) <= i < frame.Length ==> frame[i] == old(frame[i])
  {
    var rowBytes := image.width * image.components;
    var off := 0;
    var scanline := 0;
    while scanline < image.height
      invariant 0 <= scanline <= image.height
      invariant off == scanline * rowBytes
      invariant off <= image.height * rowBytes
      invariant frame[..off] == Concat(image.rows[..scanline])
      invariant forall i :: off <= i < frame.Length ==> frame[i] == old(frame[i])
    {
      var row := image.rows[scanline];
      MultiplyMonotone(scanline + 1, image.height, rowBytes);
      MultiplyByNext(scanline, rowBytes);
      ghost var copied := frame[..off];
      forall j | 0 <= j < rowBytes {
        frame[off + j] := row[j];
      }
      assert frame[..off + rowBytes] == copied + row by {
        forall i | 0 <= i < off + rowBytes
          ensures frame[..off + rowBytes][i] == (copied + row)[i]
        {
          if i >= off {
            assert frame[off + (i - off)] == row[i - off];
          }
        }
      }
      ConcatSnoc(image.rows, scanline);
      off := off + rowBytes;
      scanline := scanline + 1;
    }
    assert image.rows[..image.height] == image.rows;
  }

  // ---------------------------------------------------------------- the device

  /** The state `lib/v4l2.c` keeps in its static variables, with the driver's streaming state. */
  class CaptureDevice {
    var fd: int
    var deviceName: string
    var captureWidth: int
    var captureHeight: int
    var buffers: array<MappedBuffer>
    var buffersCount: nat
    /** Whether the driver is streaming (between VIDIOC_STREAMON and VIDIOC_STREAMOFF). */
    var streaming: bool
    /** The buffer requests sent to the driver so far. */
    ghost var log: seq<Request>

    ghost predicate Valid()
      reads this
    {
      buffersCount <= buffers.Length
    }

    /** The initial values of the static variables. */
    constructor ()
      ensures Valid() && buffersCount == 0 && !streaming && log == []
      ensures captureWidth == DefaultCaptureWidth && captureHeight == DefaultCaptureHeight
      ensures fd == 0 && deviceName == []
    {
      fd := 0;
      deviceName := [];
      captureWidth := DefaultCaptureWidth;
      captureHeight := DefaultCaptureHeight;
      buffers := new MappedBuffer[0];
      buffersCount := 0;
      streaming := false;
      log := [];
    }

    /** `open_device`: choose the path, check it, open it and keep its name. */
    method OpenDevice(name: Option<string>, stat: string -> StatReply, openFd: int) returns (r: Outcome<Fatal>)
      modifies this`fd, this`deviceName
      ensures OpenOutcome(name, stat, openFd).Ok? ==> r == Pass && fd == openFd && deviceName == OpenOutcome(name, stat, openFd).value
      ensures OpenOutcome(name, stat, openFd).Err? ==> r == Fail(OpenOutcome(name, stat, openFd).error) && deviceName == old(deviceName)
    {
      var path: string;
      match name {
        case None =>
          var found, probed := ProbeDefaultDevice(stat);
          if found.None? {
            return Fail(NoDefaultDevice);
          }
          path := Candidate(found.value);
        case Some(p) =>
          if stat(p).StatFailed? {
            return Fail(CannotIdentify);
          }
          path := p;
      }
      if !stat(path).isCharDevice {
        return Fail(NotADevice);
      }
      fd := openFd;
      if openFd == -1 {
        return Fail(CannotOpen);
      }
      if |path| + 1 >= DeviceNameMaxLen {
        return Fail(NameTooLong);
      }
      deviceName := path;
      r := Pass;
    }

    /**
     * `set_format`: ask for MJPEG at the current capture size and adopt the
     * size the driver answers with, whatever was asked.
     */
    method SetFormat(getFormatOk: bool, setFormat: FormatRequest -> FormatReply) returns (r: Outcome<Fatal>)
      modifies this`captureWidth, this`captureHeight
      ensures var reply := setFormat(FormatRequest(old(captureWidth), old(captureHeight), PixFmtMjpeg, FieldNone));
        if !getFormatOk then
          r == Fail(GetFormatFailed) && captureWidth == old(captureWidth) && captureHeight == old(captureHeight)
        else if reply.FormatRejected? then
          r == Fail(FormatUnsupported) && captureWidth == old(captureWidth) && captureHeight == old(captureHeight)
        else
          r == Pass && captureWidth == reply.width && captureHeight == reply.height
    {
      if !getFormatOk {
        return Fail(GetFormatFailed);
      }
      var request := FormatRequest(captureWidth, captureHeight, PixFmtMjpeg, FieldNone);
      var reply := setFormat(request);
      if reply.FormatRejected? {
        return Fail(FormatUnsupported);
      }
      captureWidth := reply.width;
      captureHeight := reply.height;
      r := Pass;
    }

    /**
     * `init_device`: the device must be a V4L2 video capture device with
     * streaming I/O; then the format is negotiated and automatic exposure is
     * switched on where possible. The result says whether it is on.
     */
    method InitDevice(cap: CapReply, getFormatOk: bool, setFormat: FormatRequest -> FormatReply,
                      query: CtrlQuery, current: Option<int>, accepts: int -> bool)
      returns (r: Result<bool, Fatal>)
      modifies this`captureWidth, this`captureHeight
      ensures cap.CapFailed? ==> r == Err(if cap.einval then NotV4l2Device else QueryCapFailed)
      ensures cap.Capabilities? && !cap.videoCapture ==> r == Err(NoVideoCapture)
      ensures cap == Capabilities(true, false) ==> r == Err(NoStreamingIo)
      ensures cap != Capabilities(true, true) ==> captureWidth == old(captureWidth) && captureHeight == old(captureHeight)
      ensures cap == Capabilities(true, true) ==>
        var reply := setFormat(FormatRequest(old(captureWidth), old(captureHeight), PixFmtMjpeg, FieldNone));
        if !getFormatOk then r == Err(GetFormatFailed)
        else if reply.FormatRejected? then r == Err(FormatUnsupported)
        else r == AutoExposure(query, current, accepts) && captureWidth == reply.width && captureHeight == reply.height
    {
      if cap.CapFailed? {
        return Err(if cap.einval then NotV4l2Device else QueryCapFailed);
      }
      if !cap.videoCapture {
        return Err(NoVideoCapture);
      }
      if !cap.streaming {
        return Err(NoStreamingIo);
      }
      var f := SetFormat(getFormatOk, setFormat);
      if f.Fail? {
        return Err(f.error);
      }
      var attempts;
      r, attempts := EnableAutoExposure(query, current, accepts);
    }

    /**
     * `init_mmap`: request BuffersMaxCount buffers, then query and map each
     * buffer the driver granted. `buffersCount` counts the buffers mapped.
     */
    method InitMmap(reqBufs: nat -> ReqBufsReply, queryBuf: nat -> Option<BufInfo>, mmap: BufInfo -> Option<nat>)
      returns (r: Outcome<Fatal>)
      requires Valid()
      modifies this`buffers, this`buffersCount
      ensures Valid()
      ensures log == old(log) && streaming == old(streaming)
      ensures captureWidth == old(captureWidth) && captureHeight == old(captureHeight)
      ensures reqBufs(BuffersMaxCount).ReqBufsRejected? ==>
        r == Fail(if reqBufs(BuffersMaxCount).einval then NoMemoryMapping else ReqBufsFailed)
      ensures reqBufs(BuffersMaxCount) == Granted(0) ==> r == Fail(InsufficientBufferMemory)
      ensures r.Pass? <==>
        reqBufs(BuffersMaxCount).Granted? && reqBufs(BuffersMaxCount).count > 0 &&
        forall i :: 0 <= i < reqBufs(BuffersMaxCount).count ==> queryBuf(i).Some? && mmap(queryBuf(i).value).Some?
      ensures r.Pass? ==>
        fresh(buffers) && buffersCount == buffers.Length == reqBufs(BuffersMaxCount).count &&
        forall i :: 0 <= i < buffersCount ==>
          buffers[i] == MappedBuffer(mmap(queryBuf(i).value).value, queryBuf(i).value.length)
    {
      var reply := reqBufs(BuffersMaxCount);
      if reply.ReqBufsRejected? {
        return Fail(if reply.einval then NoMemoryMapping else ReqBufsFailed);
      }
      if reply.count == 0 {
        return Fail(InsufficientBufferMemory);
      }
      var pool := new MappedBuffer[reply.count];
      buffers := pool;
      buffersCount := 0;
      while buffersCount < reply.count
        invariant buffers == pool && fresh(pool) && pool.Length == reply.count
        invariant buffersCount <= reply.count
        invariant forall i :: 0 <= i < buffersCount ==>
          queryBuf(i).Some? && mmap(queryBuf(i).value).Some? &&
          pool[i] == MappedBuffer(mmap(queryBuf(i).value).value, queryBuf(i).value.length)
      {
        var info := queryBuf(buffersCount);
        if info.None? {
          return Fail(QueryBufFailed);
        }
        var start := mmap(info.value);
        pool[buffersCount] := MappedBuffer(if start.Some? then start.value else 0, info.value.length);
        if start.None? {
          return Fail(MmapFailed);
        }
        buffersCount := buffersCount + 1;
      }
      r := Pass;
    }

    /**
     * `start_capturing`: queue buffer 0 (the request is zeroed, so its index
     * is 0) and switch streaming on.
     */
    method StartCapturing(qbufOk: bool, streamOnOk: bool) returns (r: Outcome<Fatal>)
      modifies this`log, this`streaming
      ensures !qbufOk ==> r == Fail(QBufFailed) && log == old(log) + [QBuf(0)] && streaming == old(streaming)
      ensures qbufOk ==> log == old(log) + [QBuf(0), StreamOn]
      ensures qbufOk && !streamOnOk ==> r == Fail(StreamOnFailed) && streaming == old(streaming)
      ensures qbufOk && streamOnOk ==> r == Pass && streaming
    {
      log := log + [QBuf(0)];
      if !qbufOk {
        return Fail(QBufFailed);
      }
      log := log + [StreamOn];
      if !streamOnOk {
        return Fail(StreamOnFailed);
      }
      streaming := true;
      r := Pass;
    }

    /**
     * `read_frame`: dequeue a filled buffer, check its index, copy the decoded
     * rows into the caller's frame and give the same buffer back to the driver.
     */
    method ReadFrame(dq: DqReply, image: DecodedImage, qbufOk: bool, frame: array<uint8>) returns (r: Outcome<Fatal>)
      requires Valid()
      requires WellFormed(image)
      requires image.height * (image.width * image.components) <= frame.Length
      modifies this`log, frame
      ensures Valid()
      ensures dq.DqFailed? ==> r == Fail(DqBufFailed) && log == old(log) + [DQBuf] && frame[..] == old(frame[..])
      ensures dq.Dequeued? && dq.index >= buffersCount ==>
        r == Fail(BufferIndexOutOfRange) && log == old(log) + [DQBuf] && frame[..] == old(frame[..])
      ensures dq.Dequeued? && dq.index < buffersCount ==>
        var total := image.height * (image.width * image.components);
        && log == old(log) + [DQBuf, QBuf(dq.index)]
        && (r == if qbufOk then Pass else Fail(QBufFailed))
        && frame[..total] == Concat(image.rows)
        && frame[total..] == old(frame[total..])
    {
      log := log + [DQBuf];
      if dq.DqFailed? {
        return Fail(DqBufFailed);
      }
      if dq.index >= buffersCount {
        return Fail(BufferIndexOutOfRange);
      }
      CopyScanlines(image, frame);
      log := log + [QBuf(dq.index)];
      r := if qbufOk then Pass else Fail(QBufFailed);
    }

    /** `close_device`: stream off, unmap every mapped buffer in order, close the descriptor. */
    method CloseDevice(streamOffOk: bool, munmapOk: MappedBuffer -> bool, closeOk: bool) returns (r: Outcome<Fatal>)
      requires Valid()
      modifies this`log, this`streaming
      ensures !streamOffOk ==> r == Fail(StreamOffFailed) && log == old(log) + [StreamOff] && streaming == old(streaming)
      ensures streamOffOk ==> !streaming
      ensures r == Pass <==>
        streamOffOk && closeOk && forall i :: 0 <= i < buffersCount ==> munmapOk(buffers[i])
      ensures r == Pass ==> log == old(log) + [StreamOff] + Unmaps(buffers[..buffersCount]) + [Close]
    {
      log := log + [StreamOff];
      if !streamOffOk {
        return Fail(StreamOffFailed);
      }
      streaming := false;
      var i := 0;
      while i < buffersCount
        invariant 0 <= i <= buffersCount && !streaming
        invariant log == old(log) + [StreamOff] + Unmaps(buffers[..i])
        invariant forall j :: 0 <= j < i ==> munmapOk(buffers[j])
      {
        log := log + [Munmap(buffers[i])];
        assert buffers[..i + 1][..i] == buffers[..i];
        assert Unmaps(buffers[..i + 1]) == Unmaps(buffers[..i]) + [Munmap(buffers[i])];
        if !munmapOk(buffers[i]) {
          return Fail(MunmapFailed);
        }
        i := i + 1;
      }
      log := log + [Close];
      r := if closeOk then Pass else Fail(CloseFailed);
    }
  }

  /** The munmap requests for a sequence of buffers, in order. */
  function Unmaps(bs: seq<MappedBuffer>): (rs: seq<Request>)
    ensures |rs| == |bs| && forall i :: 0 <= i < |bs| ==> rs[i] == Munmap(bs[i])
  {
    if bs == [] then [] else Unmaps(bs[..|bs| - 1]) + [Munmap(bs[|bs| - 1])]
  }
}
