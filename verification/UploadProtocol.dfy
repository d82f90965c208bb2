/** The upload phase of imp/device-update/device_updater.cpp as a state machine:
    the host's handlers as functions on its state, a device that stores what it
    has not stored last, and a link between them that loses and repeats. */
module UploadProtocol {
  import opened Bits
  import opened Containers
  import opened Slicer

  // ---------------------------------------------------------------- the host

  datatype QuitStatus = UpgradeSuccess | ErrorWithRollback | ErrorWithoutRollback

  /** What is being uploaded: the padded payloads of both images, in order. */
  datatype Job = Job(vectors: seq<seq<byte>>, codes: seq<seq<byte>>, address: nat) {
    function Count(): nat {
      |vectors| + |codes|
    }

    function All(): seq<seq<byte>> {
      vectors + codes
    }
  }

  /** An upload segment: command, 16-bit number and data. */
  datatype Packet = Packet(kind: Kind, no: nat, payload: seq<byte>)

  /** A reply to an upload segment, as the handlers read it. */
  datatype Reply = Reply(address: nat, kind: Kind, length: nat, status: byte, no: nat)

  const SUCCESS: byte := 0
  const MISSING: byte := 0x54
  const SHORT_REPLY: nat := 3
  const FULL_REPLY: nat := 5

  /** The fields of AimyUpdater the upload phase changes. */
  datatype Host = Host(kind: Kind, seqNo: int, progress: nat, quit: QuitStatus, pendingQuits: nat,
                       frame: Option<Packet>, timer: bool, writing: bool)

  /** seq & 0xffff */
  function Number(seqNo: int): (n: nat)
    ensures n < 0x10000
  {
    seqNo % 0x10000
  }

  /** The slice a kind and number stand for. */
  function Payload(job: Job, kind: Kind, seqNo: int): seq<byte> {
    if kind == VectorSlice && 0 <= seqNo < |job.vectors| then job.vectors[|job.vectors| - 1 - seqNo]
    else if kind == CodeSlice && 0 <= seqNo < |job.codes| then job.codes[|job.codes| - 1 - seqNo]
    else []
  }

  /** updateProgress */
  function Progressed(job: Job, progress: nat): nat {
    Min(progress + 1, job.Count())
  }

  /** requestQuitUpgradeWorkMode */
  function Quit(h: Host, status: QuitStatus): Host {
    h.(quit := status, pendingQuits := h.pendingQuits + 1, writing := true)
  }

  /** Moving on to the slice that follows seqNo + 1, and sending it; an upload
      that finds no slice to read is given up. */
  function SendNext(job: Job, h: Host, seqNo: int): Host {
    var (kind, next) := Settle(|job.vectors|, |job.codes|, h.kind, seqNo);
    var moved := h.(kind := kind, seqNo := next);
    if Payload(job, kind, next) == [] then Quit(moved, ErrorWithRollback)
    else moved.(frame := Some(Packet(kind, Number(next), Payload(job, kind, next))), timer := false, writing := true)
  }

  /** handleReplyUploadVectorTable and handleReplyUploadCodeSegment. */
  function OnReply(job: Job, h: Host, r: Reply): Host {
    if r.address != job.address then h
    else if r.length < SHORT_REPLY || (r.status == MISSING && r.length < FULL_REPLY) then Quit(h, ErrorWithRollback)
    else if r.no != Number(h.seqNo) then h
    else if r.status == SUCCESS then
      var counted := h.(progress := Progressed(job, h.progress));
      if r.kind == VectorSlice then SendNext(job, counted, h.seqNo - 1)
      else if h.seqNo > 0 then SendNext(job, counted, h.seqNo - 1)
      else Quit(counted, UpgradeSuccess)
    else if r.status == MISSING then OnSendTimeout(h)
    else h
  }

  /** on_send_timeout */
  function OnSendTimeout(h: Host): Host {
    h.(timer := false, writing := true)
  }

  /** on_write, when the device file takes what is written: queued quit frames
      first, else the current segment unless its timer runs. */
  function OnWrite(h: Host): Host {
    if h.pendingQuits > 0 then h.(pendingQuits := 0, writing := h.writing && !(h.timer || h.frame.None?))
    else if h.frame.Some? then h.(timer := true, writing := false)
    else h.(writing := false)
  }

  /** The segment on_write puts on the link. */
  function Written(h: Host): seq<Packet> {
    if h.pendingQuits == 0 && h.frame.Some? && !h.timer then [h.frame.value] else []
  }

  /** The state handleReplyQuerySegmentInfomation leaves. */
  function Started(job: Job): Host {
    SendNext(job, Host(VectorSlice, -2, 0, ErrorWithoutRollback, 0, None, false, false), -2)
  }

  // ---------------------------------------------------------------- the device and the link

  /** The device stores the data of every segment whose command or number
      differs from the last one it stored, and acknowledges every segment. */
  datatype Device = Device(log: seq<seq<byte>>, last: Option<(Kind, nat)>) {
    function Receive(p: Packet): Device {
      if last == Some((p.kind, p.no)) then this else Device(log + [p.payload], Some((p.kind, p.no)))
    }
  }

  function Acknowledge(job: Job, p: Packet): Reply {
    Reply(job.address, p.kind, SHORT_REPLY, SUCCESS, p.no)
  }

  datatype System = System(host: Host, device: Device, toDevice: seq<Packet>, toHost: seq<Reply>)

  datatype Event =
    | Write
    | Timeout
    | LoseSegment(at: nat)
    | RepeatSegment(at: nat)
    | DeliverSegment
    | LoseReply(at: nat)
    | RepeatReply(at: nat)
    | DeliverReply
    | Noise(reply: Reply)

  function Without<T>(s: seq<T>, i: nat): seq<T> {
    if i < |s| then s[..i] + s[i + 1..] else s
  }

  function Doubled<T>(s: seq<T>, i: nat): seq<T> {
    if i < |s| then s[..i] + [s[i]] + s[i..] else s
  }

  /** A reply that does not acknowledge anything: foreign, cut short, or with a
      status other than success. Any number of them may reach the host. */
  predicate IsNoise(job: Job, r: Reply) {
    r.address != job.address || r.length < SHORT_REPLY || r.status != SUCCESS
  }

  /** One event; an event that cannot happen changes nothing. */
  function Do(job: Job, s: System, e: Event): System {
    match e
    case Write =>
      if !s.host.writing then s else s.(host := OnWrite(s.host), toDevice := s.toDevice + Written(s.host))
    case Timeout => if !s.host.timer then s else s.(host := OnSendTimeout(s.host))
    case LoseSegment(i) => s.(toDevice := Without(s.toDevice, i))
    case RepeatSegment(i) => s.(toDevice := Doubled(s.toDevice, i))
    case DeliverSegment =>
      if s.toDevice == [] then s
      else s.(device := s.device.Receive(s.toDevice[0]), toDevice := s.toDevice[1..],
              toHost := s.toHost + [Acknowledge(job, s.toDevice[0])])
    case LoseReply(i) => s.(toHost := Without(s.toHost, i))
    case RepeatReply(i) => s.(toHost := Doubled(s.toHost, i))
    case DeliverReply =>
      if s.toHost == [] then s
      else s.(host := OnReply(job, s.host, s.toHost[0]), toHost := s.toHost[1..])
    case Noise(r) => if IsNoise(job, r) then s.(host := OnReply(job, s.host, r)) else s
  }

  function Begin(job: Job): System {
    System(Started(job), Device([], None), [], [])
  }

  function RunFrom(job: Job, s: System, events: seq<Event>): System {
    if events == [] then s else Do(job, RunFrom(job, s, events[..|events| - 1]), events[|events| - 1])
  }

  /** The state after a run. */
  function Run(job: Job, events: seq<Event>): System {
    RunFrom(job, Begin(job), events)
  }

  /** There is something to upload, and every payload has data. */
  predicate Uploadable(job: Job) {
    && job.Count() > 0
    && (forall i :: 0 <= i < |job.vectors| ==> job.vectors[i] != [])
    && (forall i :: 0 <= i < |job.codes| ==> job.codes[i] != [])
  }

  /** The last vector slice and the first code slice have different numbers. */
  predicate NumbersDiffer(job: Job) {
    job.vectors == [] || (|job.codes| - 1) % 0x10000 != 0
  }

  /** They have the same number, and the only code slice is also the last. */
  predicate DeadEnd(job: Job) {
    job.vectors != [] && |job.codes| == 1
  }

  /** They have the same number, and there are more code slices. */
  predicate Skippable(job: Job) {
    job.vectors != [] && |job.codes| > 1 && (|job.codes| - 1) % 0x10000 == 0
  }

  // ---------------------------------------------------------------- the invariant

  /** Kind and number of the slice at position p of vectors ++ codes; p may be
      one past the end once the upload is given up. */
  function KindAt(job: Job, p: nat): Kind {
    if p < |job.vectors| then VectorSlice else CodeSlice
  }

  function SeqAt(job: Job, p: nat): int {
    if p < |job.vectors| then |job.vectors| - 1 - p else job.Count() - 1 - p
  }

  function PacketAt(job: Job, p: nat): Packet {
    Packet(KindAt(job, p), Number(SeqAt(job, p)), if p < job.Count() then job.All()[p] else [])
  }

  function KeyAt(job: Job, p: nat): (Kind, nat) {
    (KindAt(job, p), Number(SeqAt(job, p)))
  }

  function ReplyAt(job: Job, p: nat): Reply {
    Acknowledge(job, PacketAt(job, p))
  }

  function Position(job: Job, h: Host): int {
    if h.kind == VectorSlice then |job.vectors| - 1 - h.seqNo else job.Count() - 1 - h.seqNo
  }

  /** The position of the segment the host is sending. */
  function Current(job: Job, p: nat): nat
    requires job.Count() > 0
  {
    if p < job.Count() then p else job.Count() - 1
  }

  ghost predicate HostInv(job: Job, h: Host, p: nat)
    requires job.Count() > 0
  {
    && (p < job.Count() || (p == job.Count() && (job.codes == [] || DeadEnd(job))))
    && h.kind == KindAt(job, p) && h.seqNo == SeqAt(job, p)
    && h.frame == Some(PacketAt(job, Current(job, p)))
    && (h.progress == p || (p + 1 == job.Count() == h.progress && job.codes != []))
    && (h.quit == UpgradeSuccess ==> p < job.Count() == h.progress && job.codes != [])
    && (h.timer || h.writing)
  }

  /** What is beyond the host, by position: the slice the device expects next,
      whether it has missed the first code slice, and what is on its way. */
  datatype Track = Track(next: nat, skipped: bool, toDevice: seq<nat>, toHost: seq<nat>)

  /** No position before this one is on its way to the host. */
  function Oldest(job: Job, p: nat, progress: nat): nat
    requires job.Count() > 0
  {
    if p >= job.Count() then (if job.codes == [] || job.vectors == [] then job.Count() - 1 else |job.vectors| - 1)
    else if progress > p || p == 0 then p
    else if Skippable(job) && p == |job.vectors| + 1 then p - 2
    else p - 1
  }

  /** The slices before n, without the first code slice if that was skipped. */
  function Stored(job: Job, n: nat, skipped: bool): seq<seq<byte>>
    requires n <= job.Count() && (skipped ==> |job.vectors| < n)
  {
    if skipped then job.All()[..|job.vectors|] + job.All()[|job.vectors| + 1..n] else job.All()[..n]
  }

  ghost predicate Ascends(s: seq<nat>, low: nat, high: int) {
    && (forall i :: 0 <= i < |s| ==> low <= s[i] <= high)
    && (forall i, j :: 0 <= i < j < |s| ==> s[i] <= s[j])
  }

  ghost predicate Carries(job: Job, packets: seq<Packet>, at: seq<nat>) {
    |packets| == |at| && forall i :: 0 <= i < |at| ==> packets[i] == PacketAt(job, at[i])
  }

  ghost predicate Confirms(job: Job, replies: seq<Reply>, at: seq<nat>) {
    |replies| == |at| && forall i :: 0 <= i < |at| ==> replies[i] == ReplyAt(job, at[i])
  }

  ghost predicate NextInv(job: Job, n: nat, skipped: bool, p: nat, progress: nat)
    requires job.Count() > 0
  {
    && n <= Current(job, p) + 1
    && (n > Oldest(job, p, progress) || n == p == progress == 0)
    && (skipped ==> Skippable(job) && |job.vectors| + 2 <= n)
  }

  ghost predicate DeviceInv(job: Job, d: Device, n: nat, skipped: bool)
    requires n <= job.Count() && (skipped ==> |job.vectors| < n)
  {
    d.log == Stored(job, n, skipped) && d.last == if n == 0 then None else Some(KeyAt(job, n - 1))
  }

  ghost predicate SegmentsInv(job: Job, toDevice: seq<Packet>, at: seq<nat>, n: nat, p: nat)
    requires job.Count() > 0
  {
    Carries(job, toDevice, at) && Ascends(at, if n == 0 then 0 else n - 1, Current(job, p))
  }

  ghost predicate RepliesInv(job: Job, toHost: seq<Reply>, at: seq<nat>, n: nat, p: nat, progress: nat)
    requires job.Count() > 0
  {
    Confirms(job, toHost, at) && Ascends(at, Oldest(job, p, progress), n - 1)
  }

  ghost predicate Tracks(job: Job, s: System, t: Track) {
    && job.Count() > 0
    && Position(job, s.host) >= 0
    && var p := Position(job, s.host) as nat;
    && HostInv(job, s.host, p)
    && NextInv(job, t.next, t.skipped, p, s.host.progress)
    && DeviceInv(job, s.device, t.next, t.skipped)
    && SegmentsInv(job, s.toDevice, t.toDevice, t.next, p)
    && RepliesInv(job, s.toHost, t.toHost, t.next, p, s.host.progress)
  }

  ghost predicate Inv(job: Job, s: System) {
    exists t :: Tracks(job, s, t)
  }

  // ---------------------------------------------------------------- sequences of positions

  lemma {:induction false} WithoutAt<T>(s: seq<T>, i: nat)
    ensures |Without(s, i)| == if i < |s| then |s| - 1 else |s|
    ensures forall k :: 0 <= k < |Without(s, i)| ==> Without(s, i)[k] == s[if k < i then k else k + 1]
  {
  }

  lemma {:induction false} DoubledAt<T>(s: seq<T>, i: nat)
    ensures |Doubled(s, i)| == if i < |s| then |s| + 1 else |s|
    ensures forall k :: 0 <= k < |Doubled(s, i)| ==> Doubled(s, i)[k] == s[if k <= i then k else k - 1]
  {
  }

  lemma {:induction false} StillAscends(s: seq<nat>, low: nat, high: int, i: nat)
    requires Ascends(s, low, high)
    ensures Ascends(Without(s, i), low, high) && Ascends(Doubled(s, i), low, high)
  {
    hide Without, Doubled;
    WithoutAt(s, i);
    DoubledAt(s, i);
  }

  lemma {:induction false} StillCarries(job: Job, packets: seq<Packet>, at: seq<nat>, i: nat)
    requires Carries(job, packets, at)
    ensures Carries(job, Without(packets, i), Without(at, i)) && Carries(job, Doubled(packets, i), Doubled(at, i))
  {
    hide Without, Doubled, PacketAt;
    WithoutAt(packets, i);
    WithoutAt(at, i);
    DoubledAt(packets, i);
    DoubledAt(at, i);
  }

  lemma {:induction false} StillConfirms(job: Job, replies: seq<Reply>, at: seq<nat>, i: nat)
    requires Confirms(job, replies, at)
    ensures Confirms(job, Without(replies, i), Without(at, i)) && Confirms(job, Doubled(replies, i), Doubled(at, i))
  {
    hide Without, Doubled, ReplyAt;
    WithoutAt(replies, i);
    WithoutAt(at, i);
    DoubledAt(replies, i);
    DoubledAt(at, i);
  }

  lemma {:induction false} AscendsNext(s: seq<nat>, low: nat, high: nat)
    requires Ascends(s, low, high) && low <= high
    ensures Ascends(s + [high], low, high)
  {
  }

  lemma {:induction false} AscendsWider(s: seq<nat>, low: nat, high: int, low': nat, high': int)
    requires Ascends(s, low, high) && high <= high' && (s != [] ==> low' <= s[0])
    ensures Ascends(s, low', high')
  {
  }

  lemma {:induction false} AscendsTail(s: seq<nat>, low: nat, high: int)
    requires Ascends(s, low, high) && s != []
    ensures low <= s[0] <= high && Ascends(s[1..], s[0], high)
  {
  }

  // ---------------------------------------------------------------- host steps

  /** Consecutive slices carry different keys, and different numbers but where
      the code slices begin; a vector slice and a code slice always do. */
  lemma {:induction false} KeysDiffer(job: Job, k: nat)
    requires k + 1 < job.Count()
    ensures KeyAt(job, k) != KeyAt(job, k + 1)
    ensures k + 1 != |job.vectors| || NumbersDiffer(job) ==> Number(SeqAt(job, k)) != Number(SeqAt(job, k + 1))
    ensures k + 1 == |job.vectors| ==> KeyAt(job, k) != KeyAt(job, k + 2)
  {
  }

  lemma {:induction false} PayloadAt(job: Job, p: nat)
    requires p < job.Count()
    ensures Payload(job, KindAt(job, p), SeqAt(job, p)) == job.All()[p]
  {
  }

  /** Sending the slice after position p. */
  lemma {:induction false} SendNextAt(job: Job, h: Host, p: nat)
    requires Uploadable(job) && p < job.Count()
    requires h.kind == KindAt(job, p) && h.seqNo == SeqAt(job, p)
    ensures p + 1 < job.Count() ==>
              SendNext(job, h, h.seqNo - 1)
              == h.(kind := KindAt(job, p + 1), seqNo := SeqAt(job, p + 1), frame := Some(PacketAt(job, p + 1)),
                    timer := false, writing := true)
    ensures p + 1 == job.Count() && (job.codes == [] || p == |job.vectors|) ==>
              SendNext(job, h, h.seqNo - 1) == Quit(h.(kind := CodeSlice, seqNo := -1), ErrorWithRollback)
  {
    if p + 1 < job.Count() {
      PayloadAt(job, p + 1);
      assert job.All()[p + 1] != [];
    }
  }

  /** The acknowledgement of the current slice moves the host one slice on. */
  lemma {:induction false} CurrentAcknowledged(job: Job, h: Host, p: nat)
    requires Uploadable(job) && HostInv(job, h, p) && p < job.Count() && h.progress == p
    ensures var r := OnReply(job, h, ReplyAt(job, p));
            && r.progress == p + 1
            && (p + 1 < job.Count() || job.codes == [] ==> HostInv(job, r, p + 1))
            && (p + 1 == job.Count() && job.codes != [] ==> HostInv(job, r, p) && r.quit == UpgradeSuccess)
  {
    SendNextAt(job, h.(progress := p + 1), p);
  }

  /** The acknowledgement of the last slice again changes nothing that matters. */
  lemma {:induction false} LastAcknowledgedAgain(job: Job, h: Host, p: nat)
    requires Uploadable(job) && HostInv(job, h, p) && p < job.Count() && h.progress > p
    ensures var r := OnReply(job, h, ReplyAt(job, p));
            HostInv(job, r, p) && r.progress == h.progress && r.quit == UpgradeSuccess
  {
  }

  /** An acknowledgement of an earlier slice that is still on its way is ignored,
      unless the last vector slice and the first code slice are numbered alike. */
  lemma {:induction false} StaleIgnored(job: Job, h: Host, p: nat, q: nat)
    requires Uploadable(job) && HostInv(job, h, p) && Oldest(job, p, h.progress) <= q < p < job.Count()
    requires NumbersDiffer(job) || p != |job.vectors|
    ensures OnReply(job, h, ReplyAt(job, q)) == h
  {
    OtherNumber(job, p, q, h.progress);
    hide Number, Oldest, KindAt, SeqAt;
  }

  lemma {:induction false} OtherNumber(job: Job, p: nat, q: nat, progress: nat)
    requires job.Count() > 0 && Oldest(job, p, progress) <= q < p < job.Count()
    requires NumbersDiffer(job) || p != |job.vectors|
    ensures Number(SeqAt(job, q)) != Number(SeqAt(job, p))
  {
    if q + 1 == p {
      KeysDiffer(job, q);
    }
  }

  /** If they are, that of the last vector slice is taken for that of the first
      code slice: the host moves on, or gives up when there is no other. */
  lemma {:induction false} StaleTaken(job: Job, h: Host, p: nat)
    requires Uploadable(job) && HostInv(job, h, p) && !NumbersDiffer(job) && p == |job.vectors| == h.progress
    ensures var r := OnReply(job, h, ReplyAt(job, p - 1));
            && HostInv(job, r, p + 1) && r.progress == p + 1
            && (DeadEnd(job) ==> r.quit == ErrorWithRollback && r.seqNo == -1)
            && (Skippable(job) ==> r.frame == Some(PacketAt(job, p + 1)) && !r.timer && r.writing && r.quit == h.quit
                                   && r.pendingQuits == h.pendingQuits)
  {
    assert job.codes != [];
    SendNextAt(job, h.(progress := p + 1), p);
  }

  lemma {:induction false} NoiseKeeps(job: Job, h: Host, p: nat, r: Reply)
    requires Uploadable(job) && HostInv(job, h, p) && IsNoise(job, r)
    ensures HostInv(job, OnReply(job, h, r), p) && OnReply(job, h, r).progress == h.progress
  {
  }

  /** Once an upload is given up no acknowledgement on its way matches any more. */
  lemma {:induction false} GivenUpIgnores(job: Job, h: Host, q: nat)
    requires Uploadable(job) && HostInv(job, h, job.Count()) && Oldest(job, job.Count(), h.progress) <= q < job.Count()
    ensures OnReply(job, h, ReplyAt(job, q)) == h
  {
  }

  // ---------------------------------------------------------------- system steps

  lemma {:induction false} BeginTracked(job: Job)
    requires Uploadable(job)
    ensures Tracks(job, Begin(job), Track(0, false, [], []))
  {
    PayloadAt(job, 0);
    assert job.All()[0] != [];
  }

  lemma {:induction false} SegmentsKept(job: Job, toDevice: seq<Packet>, at: seq<nat>, n: nat, p: nat, i: nat)
    requires job.Count() > 0 && SegmentsInv(job, toDevice, at, n, p)
    ensures SegmentsInv(job, Without(toDevice, i), Without(at, i), n, p)
    ensures SegmentsInv(job, Doubled(toDevice, i), Doubled(at, i), n, p)
  {
    hide Ascends, Carries, Without, Doubled, Current;
    StillCarries(job, toDevice, at, i);
    StillAscends(at, if n == 0 then 0 else n - 1, Current(job, p), i);
  }

  lemma {:induction false} RepliesKept(job: Job, toHost: seq<Reply>, at: seq<nat>, n: nat, p: nat, progress: nat, i: nat)
    requires job.Count() > 0 && RepliesInv(job, toHost, at, n, p, progress)
    ensures RepliesInv(job, Without(toHost, i), Without(at, i), n, p, progress)
    ensures RepliesInv(job, Doubled(toHost, i), Doubled(at, i), n, p, progress)
  {
    hide Ascends, Confirms, Without, Doubled, Oldest;
    StillConfirms(job, toHost, at, i);
    StillAscends(at, Oldest(job, p, progress), n - 1, i);
  }

  /** Losing or repeating what is on its way. */
  lemma {:induction false} LinkStepKeeps(job: Job, s: System, e: Event, t: Track) returns (t': Track)
    requires Tracks(job, s, t) && (e.LoseSegment? || e.RepeatSegment? || e.LoseReply? || e.RepeatReply?)
    ensures Tracks(job, Do(job, s, e), t') && Do(job, s, e).host == s.host
  {
    hide *;
    var p, i := Position(job, s.host), e.at;
    TrackParts(job, s, t);
    SegmentsKept(job, s.toDevice, t.toDevice, t.next, p, i);
    RepliesKept(job, s.toHost, t.toHost, t.next, p, s.host.progress, i);
    LinkChanged(job, s, e);
    t' := if e.LoseSegment? then t.(toDevice := Without(t.toDevice, i))
          else if e.RepeatSegment? then t.(toDevice := Doubled(t.toDevice, i))
          else if e.LoseReply? then t.(toHost := Without(t.toHost, i))
          else t.(toHost := Doubled(t.toHost, i));
    TrackWhole(job, Do(job, s, e), t', p);
  }

  lemma {:induction false} LinkChanged(job: Job, s: System, e: Event)
    ensures e.LoseSegment? ==> Do(job, s, e) == s.(toDevice := Without(s.toDevice, e.at))
    ensures e.RepeatSegment? ==> Do(job, s, e) == s.(toDevice := Doubled(s.toDevice, e.at))
    ensures e.LoseReply? ==> Do(job, s, e) == s.(toHost := Without(s.toHost, e.at))
    ensures e.RepeatReply? ==> Do(job, s, e) == s.(toHost := Doubled(s.toHost, e.at))
  {
    hide Without, Doubled;
  }

  lemma {:induction false} WrittenKeeps(job: Job, h: Host, p: nat)
    requires job.Count() > 0 && HostInv(job, h, p)
    ensures HostInv(job, OnWrite(h), p) && OnWrite(h).progress == h.progress
    ensures OnWrite(h).kind == h.kind && OnWrite(h).seqNo == h.seqNo
    ensures Written(h) == [] || Written(h) == [PacketAt(job, Current(job, p))]
  {
  }

  lemma {:induction false} SegmentAdded(job: Job, toDevice: seq<Packet>, at: seq<nat>, n: nat, p: nat)
    requires job.Count() > 0 && SegmentsInv(job, toDevice, at, n, p) && n <= Current(job, p) + 1
    ensures SegmentsInv(job, toDevice + [PacketAt(job, Current(job, p))], at + [Current(job, p)], n, p)
  {
    hide Current, PacketAt;
  }

  lemma {:induction false} WriteKeeps(job: Job, s: System, t: Track) returns (t': Track)
    requires Tracks(job, s, t)
    ensures Tracks(job, Do(job, s, Write), t') && Position(job, Do(job, s, Write).host) == Position(job, s.host)
    ensures t'.next == t.next && t'.skipped == t.skipped && t'.toHost == t.toHost
    ensures t'.toDevice == if s.host.writing && Written(s.host) != [] then t.toDevice + [Current(job, Position(job, s.host))]
                           else t.toDevice
  {
    hide *;
    TrackParts(job, s, t);
    var p: nat := Position(job, s.host);
    HostPlace(job, s.host, p);
    BoundOf(job, t.next, t.skipped, p, s.host.progress);
    WrittenKeeps(job, s.host, p);
    HostPlace(job, OnWrite(s.host), p);
    SegmentAdded(job, s.toDevice, t.toDevice, t.next, p);
    WriteDone(job, s);
    t' := t;
    if s.host.writing {
      t' := if Written(s.host) != [] then t.(toDevice := t.toDevice + [Current(job, p)]) else t;
      TrackWhole(job, Do(job, s, Write), t', p);
    }
  }

  lemma {:induction false} WriteDone(job: Job, s: System)
    ensures Do(job, s, Write) == if s.host.writing then s.(host := OnWrite(s.host), toDevice := s.toDevice + Written(s.host)) else s
    ensures s.toDevice + [] == s.toDevice
  {
    hide OnWrite, Written;
  }

  lemma {:induction false} TimeoutKeeps(job: Job, s: System, t: Track)
    requires Tracks(job, s, t)
    ensures Tracks(job, Do(job, s, Timeout), t)
    ensures Position(job, Do(job, s, Timeout).host) == Position(job, s.host)
  {
    hide DeviceInv, Oldest, PacketAt, NextInv, SegmentsInv, RepliesInv;
  }

  /** What the device makes of the slice at position q. */
  lemma {:induction false} Receives(job: Job, d: Device, n: nat, skipped: bool, q: nat)
    requires n <= job.Count() && (skipped ==> |job.vectors| + 2 <= n) && DeviceInv(job, d, n, skipped)
    requires q < job.Count() && (if n == 0 then q == 0 else n - 1 <= q <= n + 1)
    requires q == n + 1 ==> n == |job.vectors| && !skipped
    ensures DeviceInv(job, d.Receive(PacketAt(job, q)), if q + 1 > n then q + 1 else n, skipped || q == n + 1)
  {
    if n > 0 && q >= n {
      KeysDiffer(job, n - 1);
    }
    hide Number, KindAt, SeqAt;
    if q >= n {
      StoredNext(job, n, skipped, q);
    }
  }

  lemma {:induction false} StoredNext(job: Job, n: nat, skipped: bool, q: nat)
    requires n <= q < job.Count() && (skipped ==> |job.vectors| + 2 <= n)
    requires q == n || (q == n + 1 && n == |job.vectors| && !skipped)
    ensures Stored(job, q + 1, skipped || q == n + 1) == Stored(job, n, skipped) + [job.All()[q]]
  {
    var all := job.All();
    assert all[..n] + [all[n]] == all[..n + 1];
    if skipped {
      assert all[|job.vectors| + 1..n] + [all[n]] == all[|job.vectors| + 1..n + 1];
    } else if q == n + 1 {
      assert all[q..q + 1] == [all[q]];
    }
  }

  /** A segment at the head of the link is one the device can take. */
  lemma {:induction false} HeadSegment(job: Job, toDevice: seq<Packet>, at: seq<nat>, n: nat, p: nat)
    requires job.Count() > 0 && SegmentsInv(job, toDevice, at, n, p) && toDevice != []
    ensures at != [] && toDevice[0] == PacketAt(job, at[0]) && at[0] <= Current(job, p)
    ensures n > 0 ==> n - 1 <= at[0]
    ensures SegmentsInv(job, toDevice[1..], at[1..], if at[0] + 1 > n then at[0] + 1 else n, p)
  {
    hide Current, PacketAt;
  }

  lemma {:induction false} ReplyAdded(job: Job, toHost: seq<Reply>, at: seq<nat>, n: nat, p: nat, progress: nat, q: nat)
    requires job.Count() > 0 && RepliesInv(job, toHost, at, n, p, progress)
    requires n <= q + 1 && Oldest(job, p, progress) <= q
    ensures RepliesInv(job, toHost + [ReplyAt(job, q)], at + [q], q + 1, p, progress)
  {
    hide Oldest, ReplyAt;
  }

  /** Which segments can be at the head: the one the device stored last, the next
      one, or, behind the last vector slice, the second code slice. */
  lemma {:induction false} HeadPosition(job: Job, n: nat, skipped: bool, p: nat, progress: nat, q: nat)
    requires job.Count() > 0 && NextInv(job, n, skipped, p, progress) && q <= Current(job, p) && (n > 0 ==> n - 1 <= q)
    requires p < job.Count() || (p == job.Count() && (job.codes == [] || DeadEnd(job)))
    ensures n <= job.Count() && q < job.Count() && (skipped ==> |job.vectors| + 2 <= n)
    ensures if n == 0 then q == 0 else n - 1 <= q <= n + 1
    ensures q == n + 1 ==> n == |job.vectors| && !skipped
    ensures Oldest(job, p, progress) <= q
    ensures NextInv(job, q + 1, skipped || q == n + 1, p, progress)
  {
  }

  lemma {:induction false} DeliverSegmentKeeps(job: Job, s: System, t: Track) returns (t': Track)
    requires Tracks(job, s, t)
    ensures Tracks(job, Do(job, s, DeliverSegment), t') && Do(job, s, DeliverSegment).host == s.host
    ensures t.toDevice != [] ==>
              t' == Track(t.toDevice[0] + 1, t.skipped || t.toDevice[0] == t.next + 1, t.toDevice[1..], t.toHost + [t.toDevice[0]])
  {
    hide *;
    t' := t;
    TrackParts(job, s, t);
    NothingDelivered(job, s);
    if s.toDevice != [] {
      var p := Position(job, s.host) as nat;
      HostPlace(job, s.host, p);
      HeadSegment(job, s.toDevice, t.toDevice, t.next, p);
      var q := t.toDevice[0];
      HeadPosition(job, t.next, t.skipped, p, s.host.progress, q);
      Receives(job, s.device, t.next, t.skipped, q);
      ReplyAdded(job, s.toHost, t.toHost, t.next, p, s.host.progress, q);
      t' := Track(q + 1, t.skipped || q == t.next + 1, t.toDevice[1..], t.toHost + [q]);
      SegmentDelivered(job, s, q);
      TrackWhole(job, Do(job, s, DeliverSegment), t', p);
    }
  }

  lemma {:induction false} TrackParts(job: Job, s: System, t: Track)
    requires Tracks(job, s, t)
    ensures job.Count() > 0 && Position(job, s.host) >= 0
    ensures var p := Position(job, s.host) as nat;
            && HostInv(job, s.host, p) && NextInv(job, t.next, t.skipped, p, s.host.progress)
            && t.next <= job.Count() && (t.skipped ==> |job.vectors| + 2 <= t.next)
            && DeviceInv(job, s.device, t.next, t.skipped)
            && SegmentsInv(job, s.toDevice, t.toDevice, t.next, p)
            && RepliesInv(job, s.toHost, t.toHost, t.next, p, s.host.progress)
            && |s.toDevice| == |t.toDevice| && |s.toHost| == |t.toHost|
  {
    hide Ascends, HostInv, Stored;
  }

  /** Tracks, put together. */
  lemma {:induction false} TrackWhole(job: Job, s: System, t: Track, p: nat)
    requires job.Count() > 0 && Position(job, s.host) == p && HostInv(job, s.host, p)
    requires NextInv(job, t.next, t.skipped, p, s.host.progress)
    requires t.next <= job.Count() && (t.skipped ==> |job.vectors| < t.next) && DeviceInv(job, s.device, t.next, t.skipped)
    requires SegmentsInv(job, s.toDevice, t.toDevice, t.next, p)
    requires RepliesInv(job, s.toHost, t.toHost, t.next, p, s.host.progress)
    ensures Tracks(job, s, t)
  {
    hide HostInv, NextInv, DeviceInv, SegmentsInv, RepliesInv;
  }

  lemma {:induction false} NothingDelivered(job: Job, s: System)
    ensures s.toDevice == [] ==> Do(job, s, DeliverSegment) == s
    ensures s.toHost == [] ==> Do(job, s, DeliverReply) == s
  {
  }

  lemma {:induction false} SegmentDelivered(job: Job, s: System, q: nat)
    requires s.toDevice != [] && s.toDevice[0] == PacketAt(job, q)
    ensures Do(job, s, DeliverSegment)
         == s.(device := s.device.Receive(PacketAt(job, q)), toDevice := s.toDevice[1..], toHost := s.toHost + [ReplyAt(job, q)])
  {
    hide PacketAt;
  }

  lemma {:induction false} ReplyDelivered(job: Job, s: System, q: nat)
    requires s.toHost != [] && s.toHost[0] == ReplyAt(job, q)
    ensures Do(job, s, DeliverReply) == s.(host := OnReply(job, s.host, ReplyAt(job, q)), toHost := s.toHost[1..])
  {
    hide ReplyAt, OnReply;
  }

  lemma {:induction false} HostPlace(job: Job, h: Host, p: nat)
    requires job.Count() > 0 && HostInv(job, h, p)
    ensures p < job.Count() || (p == job.Count() && (job.codes == [] || DeadEnd(job)))
    ensures Position(job, h) == p && p <= h.progress <= p + 1 && h.progress <= job.Count()
    ensures h.progress > p ==> p + 1 == job.Count()
  {
  }

  lemma {:induction false} HeadReply(job: Job, toHost: seq<Reply>, at: seq<nat>, n: nat, p: nat, progress: nat)
    requires job.Count() > 0 && RepliesInv(job, toHost, at, n, p, progress) && toHost != []
    ensures at != [] && toHost[0] == ReplyAt(job, at[0]) && Oldest(job, p, progress) <= at[0] < n
    ensures forall p', progress' :: Oldest(job, p', progress') <= at[0] ==>
              RepliesInv(job, toHost[1..], at[1..], n, p', progress')
  {
    hide Oldest, ReplyAt;
  }

  lemma {:induction false} SegmentsStay(job: Job, toDevice: seq<Packet>, at: seq<nat>, n: nat, p: nat, p': nat)
    requires job.Count() > 0 && SegmentsInv(job, toDevice, at, n, p) && p <= p'
    ensures SegmentsInv(job, toDevice, at, n, p')
  {
    hide PacketAt;
  }

  /** What is known of a host that a reply about slice q has moved. */
  ghost predicate Moved(job: Job, n: nat, skipped: bool, p: nat, progress: nat, p': nat, progress': nat, q: nat)
    requires job.Count() > 0
  {
    p <= p' && Oldest(job, p', progress') <= q && NextInv(job, n, skipped, p', progress')
  }

  /** A reply about slice q, in each case. */
  lemma {:induction false} ReplyMoves(job: Job, h: Host, n: nat, skipped: bool, p: nat, q: nat) returns (p': nat)
    requires Uploadable(job) && job.Count() > 0 && HostInv(job, h, p) && NextInv(job, n, skipped, p, h.progress)
    requires Oldest(job, p, h.progress) <= q < n
    ensures var r := OnReply(job, h, ReplyAt(job, q));
            HostInv(job, r, p') && Moved(job, n, skipped, p, h.progress, p', r.progress, q)
    ensures var r := OnReply(job, h, ReplyAt(job, q));
            q == p && h.progress == p ==> r.progress == p + 1
    ensures var r := OnReply(job, h, ReplyAt(job, q));
            q == p && p + 1 == job.Count() && job.codes != [] ==> r.quit == UpgradeSuccess
    ensures p == job.Count() ==> p' == p
  {
    hide *;
    HostPlace(job, h, p);
    BoundOf(job, n, skipped, p, h.progress);
    p' := p;
    if p >= job.Count() {
      GivenUpIgnores(job, h, q);
      NotMoved(job, n, skipped, p, h.progress, q);
    } else if q == p {
      if h.progress == p {
        CurrentAcknowledged(job, h, p);
        p' := if p + 1 < job.Count() || job.codes == [] then p + 1 else p;
        MovedOn(job, n, skipped, p, p');
      } else {
        LastAcknowledgedAgain(job, h, p);
        NotMoved(job, n, skipped, p, h.progress, q);
      }
    } else if NumbersDiffer(job) || p != |job.vectors| {
      StaleIgnored(job, h, p, q);
      NotMoved(job, n, skipped, p, h.progress, q);
    } else {
      Misleads(job, n, skipped, p, h.progress, q);
      StaleTaken(job, h, p);
      p' := p + 1;
    }
  }

  lemma {:induction false} BoundOf(job: Job, n: nat, skipped: bool, p: nat, progress: nat)
    requires job.Count() > 0 && NextInv(job, n, skipped, p, progress)
    ensures n <= Current(job, p) + 1 && n <= job.Count()
    ensures p < job.Count() ==> Current(job, p) == p
  {
  }

  lemma {:induction false} NotMoved(job: Job, n: nat, skipped: bool, p: nat, progress: nat, q: nat)
    requires job.Count() > 0 && Oldest(job, p, progress) <= q && NextInv(job, n, skipped, p, progress)
    ensures Moved(job, n, skipped, p, progress, p, progress, q)
  {
  }

  lemma {:induction false} MovedOn(job: Job, n: nat, skipped: bool, p: nat, p': nat)
    requires job.Count() > 0 && NextInv(job, n, skipped, p, p) && p < n && p < job.Count()
    requires p' == if p + 1 < job.Count() || job.codes == [] then p + 1 else p
    ensures Moved(job, n, skipped, p, p, p', p + 1, p)
  {
  }

  lemma {:induction false} Misleads(job: Job, n: nat, skipped: bool, p: nat, progress: nat, q: nat)
    requires job.Count() > 0 && NextInv(job, n, skipped, p, progress) && !NumbersDiffer(job) && p == |job.vectors| < job.Count()
    requires p <= progress && Oldest(job, p, progress) <= q < n && q != p
    ensures progress == p && q == p - 1 && Moved(job, n, skipped, p, p, p + 1, p + 1, q)
  {
  }

  lemma {:induction false} DeliverReplyKeeps(job: Job, s: System, t: Track) returns (t': Track)
    requires Uploadable(job) && Tracks(job, s, t)
    ensures Tracks(job, Do(job, s, DeliverReply), t')
    ensures Position(job, s.host) <= Position(job, Do(job, s, DeliverReply).host)
    ensures t.toHost != [] ==>
              && t' == t.(toHost := t.toHost[1..])
              && (t.toHost[0] == Position(job, s.host) ==> Advanced(job, s.host, Do(job, s, DeliverReply).host))
  {
    hide *;
    t' := t;
    TrackParts(job, s, t);
    NothingDelivered(job, s);
    if s.toHost != [] {
      var p := Position(job, s.host) as nat;
      HeadReply(job, s.toHost, t.toHost, t.next, p, s.host.progress);
      var q := t.toHost[0];
      ReplyDelivered(job, s, q);
      var p' := ReplyMoves(job, s.host, t.next, t.skipped, p, q);
      var r := OnReply(job, s.host, ReplyAt(job, q));
      MovedParts(job, t.next, t.skipped, p, s.host.progress, p', r.progress, q);
      HostPlace(job, r, p');
      SegmentsStay(job, s.toDevice, t.toDevice, t.next, p, p');
      if q == p {
        AdvancedIs(job, s.host, r, p);
      }
      t' := t.(toHost := t.toHost[1..]);
      TrackWhole(job, Do(job, s, DeliverReply), t', p');
    }
  }

  /** One more slice is counted, or all are and success is reported. */
  ghost predicate Advanced(job: Job, before: Host, after: Host) {
    && (before.progress == Position(job, before) ==> after.progress == before.progress + 1)
    && (Position(job, before) + 1 == job.Count() && job.codes != [] ==> after.quit == UpgradeSuccess)
  }

  lemma {:induction false} AdvancedIs(job: Job, before: Host, after: Host, p: nat)
    requires p == Position(job, before)
    requires before.progress == p ==> after.progress == p + 1
    requires p + 1 == job.Count() && job.codes != [] ==> after.quit == UpgradeSuccess
    ensures Advanced(job, before, after)
  {
  }

  lemma {:induction false} MovedParts(job: Job, n: nat, skipped: bool, p: nat, progress: nat, p': nat, progress': nat, q: nat)
    requires job.Count() > 0 && Moved(job, n, skipped, p, progress, p', progress', q)
    ensures p <= p' && Oldest(job, p', progress') <= q && NextInv(job, n, skipped, p', progress')
  {
  }

  lemma {:induction false} NoiseStepKeeps(job: Job, s: System, r: Reply, t: Track)
    requires Uploadable(job) && Tracks(job, s, t)
    ensures Tracks(job, Do(job, s, Noise(r)), t)
    ensures Position(job, Do(job, s, Noise(r)).host) == Position(job, s.host)
  {
    var p := Position(job, s.host) as nat;
    if IsNoise(job, r) {
      NoiseKeeps(job, s.host, p, r);
      HostPlace(job, OnReply(job, s.host, r), p);
    }
    hide OnReply, Position, IsNoise, HostInv, NextInv, DeviceInv, SegmentsInv, RepliesInv;
  }

  // ---------------------------------------------------------------- results

  lemma {:induction false} StepKeeps(job: Job, s: System, e: Event, t: Track) returns (t': Track)
    requires Uploadable(job) && Tracks(job, s, t)
    ensures Tracks(job, Do(job, s, e), t') && Position(job, s.host) <= Position(job, Do(job, s, e).host)
  {
    hide *;
    t' := t;
    match e {
      case Write => t' := WriteKeeps(job, s, t);
      case Timeout => TimeoutKeeps(job, s, t);
      case DeliverSegment => t' := DeliverSegmentKeeps(job, s, t);
      case DeliverReply => t' := DeliverReplyKeeps(job, s, t);
      case Noise(r) => NoiseStepKeeps(job, s, r, t);
      case _ => t' := LinkStepKeeps(job, s, e, t);
    }
  }

  lemma {:induction false} RunFromLast(job: Job, s: System, events: seq<Event>)
    requires events != []
    ensures RunFrom(job, s, events) == Do(job, RunFrom(job, s, events[..|events| - 1]), events[|events| - 1])
  {
  }

  /** The invariant holds after every run, and the host never goes back. */
  lemma {:induction false} RunFromInv(job: Job, s: System, events: seq<Event>)
    requires Uploadable(job) && Inv(job, s)
    ensures Inv(job, RunFrom(job, s, events)) && Position(job, s.host) <= Position(job, RunFrom(job, s, events).host)
  {
    if events == [] {
    } else {
      var before := events[..|events| - 1];
      RunFromInv(job, s, before);
      RunFromLast(job, s, events);
      var t :| Tracks(job, RunFrom(job, s, before), t);
      hide Tracks, Do, RunFrom, Position;
      var t' := StepKeeps(job, RunFrom(job, s, before), events[|events| - 1], t);
    }
  }

  lemma {:induction false} RunInv(job: Job, events: seq<Event>)
    requires Uploadable(job)
    ensures Inv(job, Run(job, events))
  {
    BeginTracked(job);
    hide Tracks, RunFrom, Begin;
    assert Inv(job, Begin(job));
    RunFromInv(job, Begin(job), events);
  }

  /** What the invariant says of any state reached: the host is at most one slice
      behind the device and never sleeps for good; and what else holds unless the
      first code slice is numbered like the last vector slice. */
  lemma {:induction false} InvMeans(job: Job, s: System)
    requires Inv(job, s)
    ensures |s.device.log| <= s.host.progress + 1 && (s.host.timer || s.host.writing)
    ensures s.host.quit == UpgradeSuccess ==> s.host.progress == job.Count() && job.codes != [] && Position(job, s.host) < job.Count()
    ensures NumbersDiffer(job) ==> s.host.progress <= |s.device.log|
    ensures !Skippable(job) ==> s.device.log <= job.All() && (s.host.quit == UpgradeSuccess ==> s.device.log == job.All())
  {
    var t :| Tracks(job, s, t);
    hide *;
    TrackParts(job, s, t);
    var p: nat := Position(job, s.host);
    HostPlace(job, s.host, p);
    HostMeans(job, s.host, p);
    NextMeans(job, t.next, t.skipped, p, s.host.progress);
    StoredMeans(job, s.device, t.next, t.skipped);
  }

  lemma {:induction false} HostMeans(job: Job, h: Host, p: nat)
    requires job.Count() > 0 && HostInv(job, h, p)
    ensures h.timer || h.writing
    ensures h.quit == UpgradeSuccess ==> h.progress == job.Count() && job.codes != [] && p < job.Count()
  {
    hide PacketAt, KindAt, SeqAt;
  }

  lemma {:induction false} NextMeans(job: Job, n: nat, skipped: bool, p: nat, progress: nat)
    requires job.Count() > 0 && NextInv(job, n, skipped, p, progress) && p <= progress <= p + 1 && progress <= job.Count()
    requires p < job.Count() || job.codes == [] || DeadEnd(job)
    ensures n <= progress + 1
    ensures skipped ==> Skippable(job)
    ensures NumbersDiffer(job) ==> !skipped && progress <= n
    ensures p < job.Count() == progress ==> n == job.Count()
  {
  }

  lemma {:induction false} StoredMeans(job: Job, d: Device, n: nat, skipped: bool)
    requires n <= job.Count() && (skipped ==> |job.vectors| < n) && DeviceInv(job, d, n, skipped)
    ensures |d.log| == if skipped then n - 1 else n
    ensures !skipped ==> d.log <= job.All() && (n == job.Count() ==> d.log == job.All())
  {
    hide KeyAt;
  }

  // ---------------------------------------------------------------- runs that go wrong

  /** The state in which slice p has just become due and nothing is on its way. */
  function Clean(job: Job, p: nat, d: Device): System {
    System(Host(KindAt(job, p), SeqAt(job, p), p, ErrorWithoutRollback, 0, Some(PacketAt(job, p)), false, true), d, [], [])
  }

  function Took(job: Job, d: Device, p: nat): Device
    requires p < job.Count()
  {
    Device(d.log + [job.All()[p]], Some(KeyAt(job, p)))
  }

  const ROUND: seq<Event> := [Write, DeliverSegment, DeliverReply]

  function Rounds(n: nat): seq<Event> {
    if n == 0 then [] else Rounds(n - 1) + ROUND
  }

  /** The run that goes wrong: the acknowledgement of the last vector slice
      arrives twice, and the second one is taken for that of the first code
      slice. */
  function Misleading(job: Job): seq<Event>
    requires job.vectors != []
  {
    Rounds(|job.vectors| - 1) + TWICE
  }

  const TWICE: seq<Event> := [Write, DeliverSegment, RepeatReply(0), DeliverReply, DeliverReply]

  lemma {:induction false} RunAppend(job: Job, s: System, a: seq<Event>, b: Event)
    ensures RunFrom(job, s, a + [b]) == Do(job, RunFrom(job, s, a), b)
  {
    assert (a + [b])[..|a|] == a;
  }

  lemma {:induction false} RunRound(job: Job, s: System)
    ensures RunFrom(job, s, ROUND) == Do(job, Do(job, Do(job, s, Write), DeliverSegment), DeliverReply)
  {
    hide Do;
    var r := ROUND;
    assert r[..2][..1][..0] == [] && r[..2][..1] == r[..1] && r[..1] == [Write] && r[..2] == [Write, DeliverSegment];
    assert RunFrom(job, s, []) == s;
    RunAppend(job, s, [], Write);
    RunAppend(job, s, [Write], DeliverSegment);
    RunAppend(job, s, [Write, DeliverSegment], DeliverReply);
    assert [] + [Write] == [Write] && [Write] + [DeliverSegment] == [Write, DeliverSegment];
    assert [Write, DeliverSegment] + [DeliverReply] == r;
  }

  lemma {:induction false} RunTwice(job: Job, s: System)
    ensures RunFrom(job, s, TWICE)
         == Do(job, Do(job, Do(job, Do(job, Do(job, s, Write), DeliverSegment), RepeatReply(0)), DeliverReply), DeliverReply)
  {
    var r := TWICE;
    assert [Write, DeliverSegment, RepeatReply(0), DeliverReply] + [DeliverReply] == r;
    hide Do;
    RunFromNone(job, s);
    RunAppend(job, s, [], Write);
    RunAppend(job, s, [Write], DeliverSegment);
    RunAppend(job, s, [Write, DeliverSegment], RepeatReply(0));
    RunAppend(job, s, [Write, DeliverSegment, RepeatReply(0)], DeliverReply);
    RunAppend(job, s, [Write, DeliverSegment, RepeatReply(0), DeliverReply], DeliverReply);
    hide RunFrom;
    assert [] + [Write] == [Write] && [Write] + [DeliverSegment] == [Write, DeliverSegment];
    assert [Write, DeliverSegment] + [RepeatReply(0)] == [Write, DeliverSegment, RepeatReply(0)];
    assert [Write, DeliverSegment, RepeatReply(0)] + [DeliverReply] == [Write, DeliverSegment, RepeatReply(0), DeliverReply];
  }

  lemma {:induction false} RunFromNone(job: Job, s: System)
    ensures RunFrom(job, s, []) == s
  {
  }

  /** Sending slice p once, with a link that does nothing wrong. */
  lemma {:induction false} SentOnce(job: Job, p: nat, d: Device)
    requires p < job.Count() && d.last != Some(KeyAt(job, p))
    ensures Do(job, Do(job, Clean(job, p, d), Write), DeliverSegment)
         == System(Clean(job, p, d).host.(timer := true, writing := false), Took(job, d, p), [], [ReplyAt(job, p)])
  {
    hide KindAt, SeqAt, Number;
    assert [] + [PacketAt(job, p)] == [PacketAt(job, p)];
    assert [] + [ReplyAt(job, p)] == [ReplyAt(job, p)];
  }

  lemma {:induction false} CleanAcknowledged(job: Job, p: nat, d: Device)
    requires Uploadable(job) && p < job.Count()
    ensures var h := OnReply(job, Clean(job, p, d).host.(timer := true, writing := false), ReplyAt(job, p));
            && (p + 1 < job.Count() ==> h == Clean(job, p + 1, d).host)
            && (p + 1 == job.Count() && job.codes != [] ==> h.quit == UpgradeSuccess)
  {
    SendNextAt(job, Clean(job, p, d).host.(timer := true, writing := false, progress := p + 1), p);
    hide SendNext, KindAt;
  }

  /** One round from a clean state: the next one, or success. */
  lemma {:induction false} CleanRound(job: Job, p: nat, d: Device)
    requires Uploadable(job) && p < job.Count() && d.last != Some(KeyAt(job, p))
    ensures p + 1 < job.Count() ==> RunFrom(job, Clean(job, p, d), ROUND) == Clean(job, p + 1, Took(job, d, p))
    ensures p + 1 == job.Count() && job.codes != [] ==>
              var s := RunFrom(job, Clean(job, p, d), ROUND);
              s.host.quit == UpgradeSuccess && s.device == Took(job, d, p)
  {
    hide *;
    var sent := System(Clean(job, p, d).host.(timer := true, writing := false), Took(job, d, p), [], [ReplyAt(job, p)]);
    SentOnce(job, p, d);
    RunRound(job, Clean(job, p, d));
    ReplyDelivered(job, sent, p);
    assert [ReplyAt(job, p)][1..] == [];
    CleanAcknowledged(job, p, d);
    CleanParts(job, p + 1, d, Took(job, d, p));
  }

  lemma {:induction false} CleanParts(job: Job, p: nat, d: Device, e: Device)
    ensures Clean(job, p, e) == System(Clean(job, p, d).host, e, [], [])
  {
    hide KindAt, SeqAt, PacketAt;
  }

  /** A device d that has then taken slices p to p + n - 1. */
  function After(job: Job, p: nat, d: Device, n: nat): Device
    requires p + n <= job.Count()
  {
    if n == 0 then d else Device(d.log + job.All()[p..p + n], Some(KeyAt(job, p + n - 1)))
  }

  lemma {:induction false} AfterNext(job: Job, p: nat, d: Device, n: nat)
    requires p + n < job.Count() && d.last != Some(KeyAt(job, p))
    ensures Took(job, After(job, p, d, n), p + n) == After(job, p, d, n + 1)
    ensures After(job, p, d, n).last != Some(KeyAt(job, p + n))
  {
    if n > 0 {
      KeysDiffer(job, p + n - 1);
    }
    hide KeyAt;
    var all := job.All();
    assert all[p..p + n] + [all[p + n]] == all[p..p + n + 1];
  }

  lemma {:induction false} NoRounds(job: Job, p: nat, d: Device)
    requires p <= job.Count()
    ensures RunFrom(job, Clean(job, p, d), Rounds(0)) == Clean(job, p, d) && After(job, p, d, 0) == d
  {
    hide Clean;
  }

  /** So slices p, p + 1, ... go to the device one by one. */
  lemma {:induction false} CleanRounds(job: Job, p: nat, d: Device, n: nat)
    requires Uploadable(job) && p + n < job.Count() && d.last != Some(KeyAt(job, p))
    ensures RunFrom(job, Clean(job, p, d), Rounds(n)) == Clean(job, p + n, After(job, p, d, n))
    ensures After(job, p, d, n).last != Some(KeyAt(job, p + n))
  {
    hide *;
    AfterNext(job, p, d, n);
    if n == 0 {
      NoRounds(job, p, d);
    } else {
      CleanRounds(job, p, d, n - 1);
      RoundsNext(job, Clean(job, p, d), n);
      CleanRound(job, p + n - 1, After(job, p, d, n - 1));
      AfterNext(job, p, d, n - 1);
    }
  }

  lemma {:induction false} RoundsNext(job: Job, s: System, n: nat)
    requires n > 0
    ensures RunFrom(job, s, Rounds(n)) == RunFrom(job, RunFrom(job, s, Rounds(n - 1)), ROUND)
  {
    RunFromAppend(job, s, Rounds(n - 1), ROUND);
    hide RunFrom;
  }

  lemma {:induction false} RunFromAppend(job: Job, s: System, a: seq<Event>, b: seq<Event>)
    ensures RunFrom(job, s, a + b) == RunFrom(job, RunFrom(job, s, a), b)
  {
    if b == [] {
      assert a + b == a;
    } else {
      RunFromAppend(job, s, a, b[..|b| - 1]);
      assert (a + b)[..|a + b| - 1] == a + b[..|b| - 1];
    }
  }

  lemma {:induction false} BeginIsClean(job: Job)
    requires Uploadable(job)
    ensures Begin(job) == Clean(job, 0, Device([], None))
  {
    PayloadAt(job, 0);
    assert job.All()[0] != [];
  }

  /** The last vector slice is due. */
  lemma {:induction false} LastVectorDue(job: Job) returns (d: Device)
    requires Uploadable(job) && job.vectors != []
    ensures var p := |job.vectors| - 1;
            && Run(job, Rounds(p)) == Clean(job, p, d) && d.log == job.All()[..p] && d.last != Some(KeyAt(job, p))
  {
    hide *;
    var p: nat := |job.vectors| - 1;
    FirstAfter(job, p);
    BeginIsClean(job);
    CleanRounds(job, 0, Device([], None), p);
    RunIs(job, Rounds(p));
    d := After(job, 0, Device([], None), p);
  }

  lemma {:induction false} FirstAfter(job: Job, p: nat)
    requires p < |job.vectors|
    ensures p < job.Count() && After(job, 0, Device([], None), p).log == job.All()[..p]
  {
    hide KeyAt;
  }

  lemma {:induction false} RunIs(job: Job, events: seq<Event>)
    ensures Run(job, events) == RunFrom(job, Begin(job), events)
  {
  }

  /** Its acknowledgement arrives twice. */
  lemma {:induction false} TakenTwice(job: Job, d: Device)
    requires Uploadable(job) && !NumbersDiffer(job) && d.last != Some(KeyAt(job, |job.vectors| - 1))
    ensures var p := |job.vectors|; var s := RunFrom(job, Clean(job, p - 1, d), TWICE);
            && s.device == Took(job, d, p - 1) && s.host.progress == p + 1
            && (Skippable(job) ==> s == Clean(job, p + 1, s.device))
            && (DeadEnd(job) ==> s.host.quit == ErrorWithRollback && s.host.seqNo == -1 && s.host.kind == CodeSlice)
  {
    hide *;
    var p: nat := |job.vectors|;
    HasCodes(job);
    CleanAcknowledged(job, p - 1, d);
    CleanHost(job, p, d);
    TwiceSteps(job, d, p);
    var r := OnReply(job, Clean(job, p, d).host, ReplyAt(job, p - 1));
    StaleTaken(job, Clean(job, p, d).host, p);
    CleanIs(job, r, p + 1, d);
    CleanParts(job, p + 1, d, Took(job, d, p - 1));
  }

  lemma {:induction false} HasCodes(job: Job)
    requires !NumbersDiffer(job)
    ensures job.vectors != [] && job.codes != [] && (DeadEnd(job) || Skippable(job))
    ensures |job.vectors| < job.Count() && (DeadEnd(job) ==> |job.vectors| + 1 == job.Count() && !Skippable(job))
    ensures Skippable(job) ==> |job.vectors| + 1 < job.Count()
  {
  }

  lemma {:induction false} CleanHost(job: Job, p: nat, d: Device)
    requires p < job.Count()
    ensures var h := Clean(job, p, d).host;
            HostInv(job, h, p) && h.progress == p && h.quit == ErrorWithoutRollback && h.pendingQuits == 0
  {
    hide KindAt, SeqAt;
  }

  lemma {:induction false} CleanIs(job: Job, h: Host, p: nat, d: Device)
    requires job.Count() > 0 && HostInv(job, h, p)
    ensures (&& h.frame == Some(PacketAt(job, p)) && !h.timer && h.writing
             && h.quit == ErrorWithoutRollback && h.pendingQuits == 0 && h.progress == p) ==> h == Clean(job, p, d).host
    ensures h.seqNo == -1 ==> h.kind == CodeSlice
  {
    hide PacketAt;
  }

  lemma {:induction false} TwiceSteps(job: Job, d: Device, p: nat)
    requires 0 < p <= job.Count() && d.last != Some(KeyAt(job, p - 1))
    ensures var h := Clean(job, p - 1, d).host.(timer := true, writing := false); var r := ReplyAt(job, p - 1);
            RunFrom(job, Clean(job, p - 1, d), TWICE)
            == System(OnReply(job, OnReply(job, h, r), r), Took(job, d, p - 1), [], [])
  {
    var h, r := Clean(job, p - 1, d).host.(timer := true, writing := false), ReplyAt(job, p - 1);
    SentOnce(job, p - 1, d);
    RunTwice(job, Clean(job, p - 1, d));
    hide RunFrom, Clean, Took, ReplyAt, OnReply;
    var e := Took(job, d, p - 1);
    assert [r][..0] + [[r][0]] + [r][0..] == [r, r] && [r, r][1..] == [r] && [r][1..] == [];
    assert Do(job, System(h, e, [], [r]), RepeatReply(0)) == System(h, e, [], [r, r]);
  }

  lemma {:induction false} RunJoins(job: Job, a: seq<Event>, b: seq<Event>)
    ensures Run(job, a + b) == RunFrom(job, Run(job, a), b)
  {
    RunFromAppend(job, Begin(job), a, b);
  }

  /** With numbers alike, that run makes the host count a slice that the device
      does not hold. With one code slice the host gives up; with more it goes on,
      one slice ahead of the device. */
  lemma {:induction false} Misled(job: Job)
    requires Uploadable(job) && !NumbersDiffer(job)
    ensures var s := Run(job, Misleading(job)); var p: nat := |job.vectors|;
            && s.device.log == job.vectors && s.host.progress == p + 1
            && (DeadEnd(job) ==> s.host.quit == ErrorWithRollback && s.host.seqNo == -1 && Position(job, s.host) == job.Count())
            && (Skippable(job) ==> s == Clean(job, p + 1, s.device) && s.device.last == Some(KeyAt(job, p - 1)))
  {
    hide *;
    HasCodes(job);
    var p: nat := |job.vectors|;
    var d := LastVectorDue(job);
    TakenTwice(job, d);
    RunJoins(job, Rounds(p - 1), TWICE);
    MisleadingIs(job);
    AllVectors(job, d);
    GivenUpPosition(job, Run(job, Misleading(job)).host);
  }

  lemma {:induction false} MisleadingIs(job: Job)
    requires job.vectors != []
    ensures Misleading(job) == Rounds(|job.vectors| - 1) + TWICE
  {
  }

  lemma {:induction false} AllVectors(job: Job, d: Device)
    requires job.vectors != [] && d.log == job.All()[..|job.vectors| - 1]
    ensures job.Count() > 0 && Took(job, d, |job.vectors| - 1).log == job.vectors
    ensures Took(job, d, |job.vectors| - 1).last == Some(KeyAt(job, |job.vectors| - 1))
  {
    hide KeyAt;
  }

  lemma {:induction false} GivenUpPosition(job: Job, h: Host)
    ensures h.kind == CodeSlice && h.seqNo == -1 ==> Position(job, h) == job.Count()
  {
  }

  /** The same run, carried on without any more mishap. */
  function Skipping(job: Job): seq<Event>
    requires Skippable(job)
  {
    Misleading(job) + Rounds(|job.codes| - 2) + ROUND
  }

  /** It ends with success, and the device holds all slices but the first code
      slice. */
  lemma {:induction false} SliceSkipped(job: Job)
    requires Uploadable(job) && Skippable(job)
    ensures var s := Run(job, Skipping(job));
            s.host.quit == UpgradeSuccess && s.device.log == job.vectors + job.codes[1..]
  {
    hide *;
    SkippableIs(job);
    SkippingIs(job);
    var p: nat, n: nat := |job.vectors| + 1, |job.codes| - 2;
    var d := Run(job, Misleading(job)).device;
    Misled(job);
    CleanRounds(job, p, d, n);
    CleanRound(job, p + n, After(job, p, d, n));
    AfterNext(job, p, d, n);
    RunJoins(job, Misleading(job), Rounds(n));
    RunJoins(job, Misleading(job) + Rounds(n), ROUND);
    AllButOne(job, d, p);
  }

  lemma {:induction false} SkippableIs(job: Job)
    requires Skippable(job)
    ensures !NumbersDiffer(job) && |job.codes| >= 2 && job.Count() == |job.vectors| + |job.codes| && job.codes != []
    ensures KeyAt(job, |job.vectors| - 1) != KeyAt(job, |job.vectors| + 1)
  {
  }

  lemma {:induction false} SkippingIs(job: Job)
    requires Skippable(job)
    ensures job.vectors != [] && |job.codes| >= 2 && Skipping(job) == Misleading(job) + Rounds(|job.codes| - 2) + ROUND
  {
  }

  lemma {:induction false} AllButOne(job: Job, d: Device, p: nat)
    requires Skippable(job) && p == |job.vectors| + 1 && d.log == job.vectors
    ensures After(job, p, d, |job.codes| - 1).log == job.vectors + job.codes[1..]
  {
    hide KeyAt;
    assert job.All()[p..p + |job.codes| - 1] == job.codes[1..];
  }

  // ---------------------------------------------------------------- the exact conditions

  /** Over a lossy, duplicating first-in-first-out link, success is reported only
      when the device holds every slice if and only if there are no vector slices,
      at most one code slice, or the last vector slice and the first code slice
      are numbered differently. Then what the device holds is always a beginning
      of the slices. */
  lemma {:induction false} UploadSafeIff(job: Job)
    requires Uploadable(job)
    ensures (forall events :: Run(job, events).host.quit == UpgradeSuccess ==> Run(job, events).device.log == job.All())
       <==> job.vectors == [] || |job.codes| <= 1 || (|job.codes| - 1) % 0x10000 != 0
    ensures job.vectors == [] || |job.codes| <= 1 || (|job.codes| - 1) % 0x10000 != 0 ==>
              forall events :: Run(job, events).device.log <= job.All()
  {
    if Skippable(job) {
      SliceSkipped(job);
      assert |job.vectors + job.codes[1..]| != |job.All()|;
    } else {
      forall events
        ensures Run(job, events).device.log <= job.All()
        ensures Run(job, events).host.quit == UpgradeSuccess ==> Run(job, events).device.log == job.All()
      {
        RunInv(job, events);
        InvMeans(job, Run(job, events));
      }
    }
  }

  /** The host never counts a slice that the device does not hold if and only if
      the last vector slice and the first code slice are numbered differently. */
  lemma {:induction false} CountSafeIff(job: Job)
    requires Uploadable(job)
    ensures (forall events :: Run(job, events).host.progress <= |Run(job, events).device.log|) <==> NumbersDiffer(job)
  {
    hide NumbersDiffer;
    if NumbersDiffer(job) {
      forall events ensures Run(job, events).host.progress <= |Run(job, events).device.log| {
        RunInv(job, events);
        InvMeans(job, Run(job, events));
      }
    } else {
      Misled(job);
      HasCodes(job);
      var s := Run(job, Misleading(job));
      assert s.host.progress > |s.device.log|;
    }
  }

  /** In every run the device is at most one slice ahead of the count, success
      means that all slices are counted, and the host has a reason to wake up. */
  lemma {:induction false} UploadAlways(job: Job, events: seq<Event>)
    requires Uploadable(job)
    ensures var s := Run(job, events);
            && |s.device.log| <= s.host.progress + 1 && (s.host.timer || s.host.writing)
            && (s.host.quit == UpgradeSuccess ==> s.host.progress == job.Count())
  {
    RunInv(job, events);
    InvMeans(job, Run(job, events));
  }

  // ---------------------------------------------------------------- no deadlock

  ghost predicate Reaches(job: Job, s: System, t: System) {
    exists events :: RunFrom(job, s, events) == t
  }

  lemma {:induction false} ReachesOne(job: Job, s: System, t: System, e: Event)
    requires Reaches(job, s, t)
    ensures Reaches(job, s, Do(job, t, e))
  {
    var events :| RunFrom(job, s, events) == t;
    RunAppend(job, s, events, e);
  }

  lemma {:induction false} ReachesTrans(job: Job, s: System, t: System, u: System)
    requires Reaches(job, s, t) && Reaches(job, t, u)
    ensures Reaches(job, s, u)
  {
    var a :| RunFrom(job, s, a) == t;
    var b :| RunFrom(job, t, b) == u;
    RunFromAppend(job, s, a, b);
  }

  lemma {:induction false} ReachesSelf(job: Job, s: System)
    ensures Reaches(job, s, s)
  {
    assert RunFrom(job, s, []) == s;
  }

  /** Losing everything that is on its way. */
  lemma {:induction false} Emptied(job: Job, s: System, t: Track) returns (u: System, t': Track)
    requires Tracks(job, s, t)
    ensures Reaches(job, s, u) && Tracks(job, u, t') && u == s.(toDevice := [], toHost := [])
    decreases |s.toDevice| + |s.toHost|
  {
    hide *;
    ReachesSelf(job, s);
    u, t' := s, t;
    if s.toDevice != [] || s.toHost != [] {
      var e := if s.toDevice != [] then LoseSegment(0) else LoseReply(0);
      LostFirst(job, s, e);
      t' := LinkStepKeeps(job, s, e, t);
      ReachesOne(job, s, s, e);
      u, t' := Emptied(job, Do(job, s, e), t');
      ReachesTrans(job, s, Do(job, s, e), u);
    }
  }

  lemma {:induction false} LostFirst(job: Job, s: System, e: Event)
    requires s.toDevice != [] || s.toHost != []
    requires e == if s.toDevice != [] then LoseSegment(0) else LoseReply(0)
    ensures var u := Do(job, s, e);
            && u.host == s.host && u.device == s.device
            && |u.toDevice| + |u.toHost| < |s.toDevice| + |s.toHost|
  {
  }

  /** A host that is about to write the current segment. */
  lemma {:induction false} Armed(job: Job, s: System, t: Track) returns (u: System, t': Track)
    requires Tracks(job, s, t)
    ensures Reaches(job, s, u) && Tracks(job, u, t') && Position(job, u.host) == Position(job, s.host)
    ensures !u.host.timer && u.host.writing && u.host.pendingQuits == 0 && u.host.progress == s.host.progress
    ensures u.toDevice == [] && u.toHost == []
  {
    hide *;
    u, t' := Emptied(job, s, t);
    TrackParts(job, u, t');
    Ready(job, u, Position(job, u.host));
    TimeoutKeeps(job, u, t');
    ReachesOne(job, s, u, Timeout);
    u := Do(job, u, Timeout);
    if u.host.pendingQuits > 0 {
      TrackParts(job, u, t');
      Ready(job, u, Position(job, u.host));
      t' := WriteKeeps(job, u, t');
      ReachesOne(job, s, u, Write);
      u := Do(job, u, Write);
    }
  }

  lemma {:induction false} Ready(job: Job, s: System, p: nat)
    requires job.Count() > 0 && HostInv(job, s.host, p)
    ensures var u := Do(job, s, Timeout);
            !u.host.timer && u.host.writing && u.host.progress == s.host.progress && u.toDevice == s.toDevice && u.toHost == s.toHost
    ensures s.host.pendingQuits > 0 && s.host.writing && !s.host.timer ==>
              var u := Do(job, s, Write);
              && u.host == s.host.(pendingQuits := 0) && u.toDevice == s.toDevice && u.toHost == s.toHost
    ensures s.host.pendingQuits == 0 && s.host.writing && !s.host.timer ==>
              Written(s.host) != [] && Do(job, s, Write).host.progress == s.host.progress
  {
    hide PacketAt, Current;
    assert s.toDevice + [] == s.toDevice;
  }

  /** The upload does not end before the last slice. */
  predicate Finishable(job: Job) {
    job.codes != [] && !DeadEnd(job)
  }

  /** From every state the host gets one more slice acknowledged, or, with all
      of them acknowledged, reports success. */
  lemma {:induction false} Pushed(job: Job, s: System, t: Track) returns (u: System, t': Track)
    requires Uploadable(job) && Finishable(job) && Tracks(job, s, t)
    ensures Reaches(job, s, u) && Tracks(job, u, t')
    ensures s.host.progress + 1 < job.Count() ==> u.host.progress == s.host.progress + 1
    ensures s.host.progress + 1 >= job.Count() ==> u.host.quit == UpgradeSuccess
  {
    var a, ta := Armed(job, s, t);
    TrackParts(job, a, ta);
    var p := Position(job, a.host) as nat;
    HostPlace(job, a.host, p);
    hide *;
    FinishableIs(job);
    Ready(job, a, p);
    CurrentIs(job, p);
    var b, c := Do(job, a, Write), Do(job, Do(job, a, Write), DeliverSegment);
    ReachesOne(job, s, a, Write);
    ReachesOne(job, s, b, DeliverSegment);
    ReachesOne(job, s, c, DeliverReply);
    var tb := WriteKeeps(job, a, ta);
    var tc := DeliverSegmentKeeps(job, b, tb);
    u := Do(job, c, DeliverReply);
    t' := DeliverReplyKeeps(job, c, tc);
    assert tb.toDevice == [p] && tc.toHost == [p];
    AdvancedParts(job, c.host, u.host);
  }

  lemma {:induction false} FinishableIs(job: Job)
    requires Finishable(job)
    ensures job.codes != [] && !DeadEnd(job)
  {
  }

  lemma {:induction false} CurrentIs(job: Job, p: nat)
    requires p < job.Count()
    ensures Current(job, p) == p
  {
  }

  lemma {:induction false} AdvancedParts(job: Job, before: Host, after: Host)
    requires Advanced(job, before, after)
    ensures before.progress == Position(job, before) ==> after.progress == before.progress + 1
    ensures Position(job, before) + 1 == job.Count() && job.codes != [] ==> after.quit == UpgradeSuccess
  {
  }

  lemma {:induction false} FinishFrom(job: Job, s: System, t: Track) returns (u: System)
    requires Uploadable(job) && Finishable(job) && Tracks(job, s, t)
    ensures Reaches(job, s, u) && u.host.quit == UpgradeSuccess
    decreases job.Count() - s.host.progress
  {
    hide *;
    var a, ta := Pushed(job, s, t);
    u := a;
    if s.host.progress + 1 < job.Count() {
      u := FinishFrom(job, a, ta);
      ReachesTrans(job, s, a, u);
    }
  }

  /** Whatever the link has done so far, the upload can still end with success, if
      and only if there are code slices, and not just one behind vector slices. */
  lemma {:induction false} CanFinishIff(job: Job)
    requires Uploadable(job)
    ensures (forall events :: CanSucceed(job, events))
       <==> job.codes != [] && (job.vectors == [] || |job.codes| != 1)
  {
    if Finishable(job) {
      forall events ensures CanSucceed(job, events) {
        UploadCanFinish(job, events);
      }
    } else {
      var events := if job.codes == [] then [] else Misleading(job);
      hide RunFrom, Run, Misleading;
      forall more ensures Run(job, events + more).host.quit != UpgradeSuccess {
        GivenUpForGood(job, more);
      }
      assert !CanSucceed(job, events);
    }
  }

  /** After these events success can still be reported. */
  ghost predicate CanSucceed(job: Job, events: seq<Event>) {
    exists more :: Run(job, events + more).host.quit == UpgradeSuccess
  }

  lemma {:induction false} UploadCanFinish(job: Job, events: seq<Event>)
    requires Uploadable(job) && Finishable(job)
    ensures CanSucceed(job, events)
  {
    RunInv(job, events);
    var t :| Tracks(job, Run(job, events), t);
    hide Tracks, Run, RunFrom, Uploadable, Finishable;
    var u := FinishFrom(job, Run(job, events), t);
    var more := WayTo(job, Run(job, events), u);
    RunJoins(job, events, more);
  }

  lemma {:induction false} WayTo(job: Job, s: System, u: System) returns (events: seq<Event>)
    requires Reaches(job, s, u)
    ensures RunFrom(job, s, events) == u
  {
    events :| RunFrom(job, s, events) == u;
  }

  lemma {:induction false} NotFinishable(job: Job)
    requires !Finishable(job)
    ensures job.codes != [] ==> DeadEnd(job) && !NumbersDiffer(job) && job.vectors != []
  {
  }

  lemma {:induction false} GivenUpForGood(job: Job, more: seq<Event>)
    requires Uploadable(job) && !Finishable(job)
    ensures var events := if job.codes == [] then [] else Misleading(job);
            Run(job, events + more).host.quit != UpgradeSuccess
  {
    var events := if job.codes == [] then [] else Misleading(job);
    RunInv(job, events + more);
    InvMeans(job, Run(job, events + more));
    NotFinishable(job);
    hide *;
    if job.codes != [] {
      Misled(job);
      RunInv(job, events);
      RunJoins(job, events, more);
      RunFromInv(job, Run(job, events), more);
    }
  }

  /** A reply that would take a host past the end of its count. */
  predicate Restarts(job: Job, h: Host, r: Reply) {
    && h.seqNo == -1 && r.kind == VectorSlice
    && r.address == job.address && r.length >= SHORT_REPLY && r.status == SUCCESS && r.no == Number(-1)
  }

  /** In no run is there one. */
  lemma {:induction false} NeverRestarts(job: Job, events: seq<Event>, r: Reply)
    requires Uploadable(job) && (r in Run(job, events).toHost || IsNoise(job, r))
    ensures !Restarts(job, Run(job, events).host, r)
  {
    var s := Run(job, events);
    RunInv(job, events);
    var t :| Tracks(job, s, t);
    TrackParts(job, s, t);
    hide Tracks, Run, DeviceInv, NextInv, SegmentsInv;
    if r in s.toHost && s.host.seqNo == -1 {
      var i :| 0 <= i < |s.toHost| && s.toHost[i] == r;
      EndOfCount(job, s.host, Position(job, s.host) as nat);
      assert r == ReplyAt(job, t.toHost[i]) && Oldest(job, job.Count(), s.host.progress) <= t.toHost[i] < t.next;
      EndNumbers(job, t.toHost[i], s.host.progress);
    }
  }

  lemma {:induction false} EndOfCount(job: Job, h: Host, p: nat)
    requires job.Count() > 0 && HostInv(job, h, p) && h.seqNo == -1 && p == Position(job, h)
    ensures p == job.Count()
  {
  }

  lemma {:induction false} EndNumbers(job: Job, q: nat, progress: nat)
    requires job.Count() > 0 && Oldest(job, job.Count(), progress) <= q < job.Count() && (job.codes == [] || DeadEnd(job))
    ensures ReplyAt(job, q).no != Number(-1)
  {
  }
}
