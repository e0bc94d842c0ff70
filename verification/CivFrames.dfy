/** Icom CI-V replies and BCD frequencies (radio/serial_rig.py). */
module CivFrames {
  import opened Prelude

  type byte = b: int | 0 <= b < 256

  const FE: byte := 0xFE
  const EOM: byte := 0xFD
  const CONTROLLER: byte := 0xE0
  const NG: byte := 0xFA
  const OK: byte := 0xFB

  // ---- cutting the byte stream into frames ----

  /** `buf.find(preamble, i)`, or |buf|. */
  function FindPreamble(buf: seq<byte>, i: nat): (k: nat)
    requires i <= |buf|
    ensures i <= k <= |buf| && (k < |buf| ==> k + 2 <= |buf| && buf[k] == FE && buf[k + 1] == FE)
    ensures forall j :: i <= j < k && j + 1 < |buf| ==> buf[j] != FE || buf[j + 1] != FE
    decreases |buf| - i
  {
    if i + 1 >= |buf| then |buf|
    else if buf[i] == FE && buf[i + 1] == FE then i
    else FindPreamble(buf, i + 1)
  }

  /** `buf.find(eom, i)`, or |buf|. */
  function FindEnd(buf: seq<byte>, i: nat): (k: nat)
    requires i <= |buf|
    ensures i <= k <= |buf| && (k < |buf| ==> buf[k] == EOM)
    ensures forall j :: i <= j < k ==> buf[j] != EOM
    decreases |buf| - i
  {
    if i == |buf| || buf[i] == EOM then i else FindEnd(buf, i + 1)
  }

  /** Where the first complete frame lies: its preamble and its end. */
  function FirstFrame(buf: seq<byte>): (r: Option<(nat, nat)>)
    ensures r.Some? ==> r.value.0 + 2 <= r.value.1 < |buf|
  {
    var start := FindPreamble(buf, 0);
    if start == |buf| then None
    else
      var end := FindEnd(buf, start + 2);
      if end == |buf| then None else Some((start, end))
  }

  /** The complete frames in the buffer, without preamble and end, and what stays in it. */
  function Split(buf: seq<byte>): (seq<seq<byte>>, seq<byte>)
    decreases |buf|
  {
    match FirstFrame(buf)
    case None => ([], buf)
    case Some((start, end)) =>
      var (frames, rest) := Split(buf[end + 1..]);
      ([buf[start + 2..end]] + frames, rest)
  }

  lemma {:induction false} FindPreambleAt(buf: seq<byte>, i: nat, k: nat)
    requires i <= k && k + 2 <= |buf| && buf[k] == FE && buf[k + 1] == FE
    requires forall j :: i <= j < k ==> buf[j] != FE || buf[j + 1] != FE
    ensures FindPreamble(buf, i) == k
    decreases k - i
  {
    if i < k {
      FindPreambleAt(buf, i + 1, k);
    }
  }

  lemma {:induction false} FindEndAt(buf: seq<byte>, i: nat, k: nat)
    requires i <= k < |buf| && buf[k] == EOM && forall j :: i <= j < k ==> buf[j] != EOM
    ensures FindEnd(buf, i) == k
    decreases k - i
  {
    if i < k {
      FindEndAt(buf, i + 1, k);
    }
  }

  /** A frame that is complete stays the first frame whatever follows. */
  lemma FirstFrameStays(a: seq<byte>, b: seq<byte>)
    requires FirstFrame(a).Some?
    ensures FirstFrame(a + b) == FirstFrame(a)
  {
    hide FindPreamble, FindEnd;
    var (start, end) := FirstFrame(a).value;
    var buf := a + b;
    assert forall j :: 0 <= j < |a| ==> buf[j] == a[j];
    FindPreambleAt(buf, 0, start);
    FindEndAt(buf, start + 2, end);
  }

  /** Cutting a stream that arrives in two pieces is cutting it at once. */
  lemma {:induction false} SplitConcat(a: seq<byte>, b: seq<byte>)
    ensures Split(a + b) == (Split(a).0 + Split(Split(a).1 + b).0, Split(Split(a).1 + b).1)
    decreases |a|
  {
    hide FirstFrame, Split;
    match FirstFrame(a)
    case None =>
      NoFrame(a);
      assert [] + Split(a + b).0 == Split(a + b).0;
    case Some((start, end)) =>
      FirstFrameStays(a, b);
      SplitStep(a, start, end);
      SplitStep(a + b, start, end);
      var rest := a[end + 1..];
      assert (a + b)[end + 1..] == rest + b && (a + b)[start + 2..end] == a[start + 2..end];
      SplitConcat(rest, b);
      Associate([a[start + 2..end]], Split(rest).0, Split(Split(rest).1 + b).0);
  }

  lemma NoFrame(buf: seq<byte>)
    requires FirstFrame(buf).None?
    ensures Split(buf) == ([], buf)
  {
    hide FirstFrame;
  }

  lemma SplitStep(buf: seq<byte>, start: nat, end: nat)
    requires FirstFrame(buf) == Some((start, end))
    ensures Split(buf) == ([buf[start + 2..end]] + Split(buf[end + 1..]).0, Split(buf[end + 1..]).1)
  {
    hide FirstFrame;
  }

  lemma Associate<T>(a: seq<T>, b: seq<T>, c: seq<T>)
    ensures a + (b + c) == (a + b) + c
  {}

  // ---- what a frame means for the command just sent ----

  datatype Verdict = Skip | Rejected | Reply(payload: seq<byte>)

  /** `asked` is the command of a read, None for a set. */
  function Judge(frame: seq<byte>, addr: byte, asked: Option<seq<byte>>): Verdict {
    if |frame| < 2 then Skip
    else if frame[0] == addr && frame[1] == CONTROLLER then Skip
    else if frame[0] != CONTROLLER || frame[1] != addr then Skip
    else
      var payload := frame[2..];
      if payload != [] && payload[0] == NG then Rejected
      else match asked
        case None => if payload != [] && payload[0] == OK then Reply(payload[1..]) else Skip
        case Some(cmd) => if cmd <= payload then Reply(payload) else Skip
  }

  /** The first frame that answers the command. */
  function Decide(frames: seq<seq<byte>>, addr: byte, asked: Option<seq<byte>>): Verdict {
    if frames == [] then Skip
    else if !Judge(frames[0], addr, asked).Skip? then Judge(frames[0], addr, asked)
    else Decide(frames[1..], addr, asked)
  }

  lemma {:induction false} DecideConcat(a: seq<seq<byte>>, b: seq<seq<byte>>, addr: byte, asked: Option<seq<byte>>)
    ensures Decide(a + b, addr, asked) ==
      if Decide(a, addr, asked).Skip? then Decide(b, addr, asked) else Decide(a, addr, asked)
  {
    hide Judge;
    if a == [] {
      assert a + b == b;
    } else {
      DecideConcat(a[1..], b, addr, asked);
      assert (a + b)[1..] == a[1..] + b;
    }
  }

  // ---- reading ----

  function Concat(chunks: seq<seq<byte>>): seq<byte> {
    if chunks == [] then [] else Concat(chunks[..|chunks| - 1]) + chunks[|chunks| - 1]
  }

  /** The inner loop: take complete frames off the buffer until one answers. */
  method TakeFrames(data: seq<byte>, addr: byte, asked: Option<seq<byte>>) returns (v: Verdict, buf: seq<byte>)
    ensures v == Decide(Split(data).0, addr, asked)
    ensures v.Skip? ==> buf == Split(data).1
  {
    hide Judge, FirstFrame;
    buf := data;
    while true
      invariant Decide(Split(buf).0, addr, asked) == Decide(Split(data).0, addr, asked)
      invariant Split(buf).1 == Split(data).1
      decreases |buf|
    {
      var found := FirstFrame(buf);
      if found.None? {
        return Skip, buf;
      }
      var (start, end) := found.value;
      var frame := buf[start + 2..end];
      assert Split(buf).0[0] == frame && Split(buf).0[1..] == Split(buf[end + 1..]).0;
      buf := buf[end + 1..];
      var verdict := Judge(frame, addr, asked);
      if !verdict.Skip? {
        return verdict, buf;
      }
    }
  }

  /** `_read_response`: `chunks` are what the port delivers before the deadline, in
      whatever pieces; Skip stands for the timeout. */
  method ReadResponse(chunks: seq<seq<byte>>, addr: byte, asked: Option<seq<byte>>) returns (v: Verdict)
    ensures v == Decide(Split(Concat(chunks)).0, addr, asked)
  {
    hide Judge, FirstFrame;
    var buf: seq<byte> := [];
    NothingYet();
    for i := 0 to |chunks|
      invariant Split(Concat(chunks[..i])).1 == buf && Decide(Split(Concat(chunks[..i])).0, addr, asked).Skip?
    {
      Arrives(chunks, i, addr, asked);
      v, buf := TakeFrames(buf + chunks[i], addr, asked);
      if !v.Skip? {
        Settled(chunks, i + 1, addr, asked);
        return;
      }
    }
    assert chunks[..|chunks|] == chunks;
    v := Skip;
  }

  lemma NothingYet()
    ensures Split([]) == ([], [])
  {}

  /** One more chunk, seen from the whole stream. */
  lemma Arrives(chunks: seq<seq<byte>>, i: nat, addr: byte, asked: Option<seq<byte>>)
    requires i < |chunks| && Decide(Split(Concat(chunks[..i])).0, addr, asked).Skip?
    ensures var whole := Split(Concat(chunks[..i + 1])); var more := Split(Split(Concat(chunks[..i])).1 + chunks[i]);
      whole.1 == more.1 && Decide(whole.0, addr, asked) == Decide(more.0, addr, asked)
  {
    hide Split, Decide;
    assert chunks[..i + 1][..i] == chunks[..i];
    SplitConcat(Concat(chunks[..i]), chunks[i]);
    DecideConcat(Split(Concat(chunks[..i])).0, Split(Split(Concat(chunks[..i])).1 + chunks[i]).0, addr, asked);
  }

  /** What is decided on a part of the stream is decided on all of it. */
  lemma {:induction false} Settled(chunks: seq<seq<byte>>, i: nat, addr: byte, asked: Option<seq<byte>>)
    requires i <= |chunks| && !Decide(Split(Concat(chunks[..i])).0, addr, asked).Skip?
    ensures Decide(Split(Concat(chunks)).0, addr, asked) == Decide(Split(Concat(chunks[..i])).0, addr, asked)
    decreases |chunks|
  {
    hide Split, Decide;
    if i == |chunks| {
      assert chunks[..i] == chunks;
    } else {
      var front := chunks[..|chunks| - 1];
      assert front[..i] == chunks[..i];
      Settled(front, i, addr, asked);
      var last := chunks[|chunks| - 1];
      SplitConcat(Concat(front), last);
      DecideConcat(Split(Concat(front)).0, Split(Split(Concat(front)).1 + last).0, addr, asked);
    }
  }

  /** A decision rests on one frame of the stream, with only skipped frames before it. */
  lemma {:induction false} DecidedBy(frames: seq<seq<byte>>, addr: byte, asked: Option<seq<byte>>) returns (i: nat)
    requires !Decide(frames, addr, asked).Skip?
    ensures i < |frames| && Judge(frames[i], addr, asked) == Decide(frames, addr, asked)
    ensures forall j :: 0 <= j < i ==> Judge(frames[j], addr, asked).Skip?
  {
    hide Judge;
    if !Judge(frames[0], addr, asked).Skip? {
      i := 0;
    } else {
      i := DecidedBy(frames[1..], addr, asked);
      assert frames[1..][i] == frames[i + 1];
      assert forall j :: 1 <= j < i + 1 ==> frames[j] == frames[1..][j - 1];
      i := i + 1;
    }
  }

  /** Main result. A set succeeds only on the rig's own OK frame, a read only on the
      rig's data frame that echoes the command; either time no rejection of the rig
      came before it. */
  lemma SuccessIsOwn(stream: seq<byte>, addr: byte, asked: Option<seq<byte>>) returns (i: nat)
    requires Decide(Split(stream).0, addr, asked).Reply? && addr != CONTROLLER
    ensures var frames := Split(stream).0; var payload := Decide(frames, addr, asked).payload;
      && i < |frames|
      && frames[i] == [CONTROLLER, addr] + (if asked.None? then [OK] else []) + payload
      && (asked.Some? ==> asked.value <= payload)
      && forall j :: 0 <= j < i ==> !([CONTROLLER, addr, NG] <= frames[j])
  {
    var frames := Split(stream).0;
    i := DecidedBy(frames, addr, asked);
    forall j | 0 <= j < i ensures !([CONTROLLER, addr, NG] <= frames[j]) {
      assert Judge(frames[j], addr, asked).Skip?;
    }
  }

  // ---- a whole exchange ----

  /** FE FE to from data FD. */
  function Frame(to: byte, from: byte, data: seq<byte>): seq<byte> {
    [FE, FE, to, from] + data + [EOM]
  }

  /** A frame whose bytes hold no end marker is cut out as it was sent. */
  lemma FrameIsCut(to: byte, from: byte, data: seq<byte>, rest: seq<byte>)
    requires to != EOM && from != EOM && EOM !in data
    ensures Split(Frame(to, from, data) + rest) == ([[to, from] + data] + Split(rest).0, Split(rest).1)
  {
    hide FindPreamble, FindEnd;
    var buf := Frame(to, from, data) + rest;
    var end := 4 + |data|;
    assert buf[end] == EOM && buf[2] == to && buf[3] == from;
    assert forall j :: 4 <= j < end ==> buf[j] == data[j - 4];
    FindPreambleAt(buf, 0, 0);
    FindEndAt(buf, 2, end);
    assert buf[2..end] == [to, from] + data && buf[end + 1..] == rest;
  }

  /** On a bus that echoes, the command's own echo is passed over and the rig's reply
      is returned, in whatever pieces the two arrive. */
  lemma EchoThenReply(addr: byte, cmd: seq<byte>, payload: seq<byte>, later: seq<byte>)
    requires addr != EOM && addr != CONTROLLER && EOM !in cmd && EOM !in payload
    requires cmd != [] && cmd[0] != NG && cmd <= payload
    ensures var stream := Frame(addr, CONTROLLER, cmd) + (Frame(CONTROLLER, addr, payload) + later);
      Decide(Split(stream).0, addr, Some(cmd)) == Reply(payload)
  {
    var reply := Frame(CONTROLLER, addr, payload) + later;
    FrameIsCut(addr, CONTROLLER, cmd, reply);
    FrameIsCut(CONTROLLER, addr, payload, later);
    var frames := Split(Frame(addr, CONTROLLER, cmd) + reply).0;
    assert frames[0] == [addr, CONTROLLER] + cmd && frames[1] == [CONTROLLER, addr] + payload;
    assert frames[1..][0] == frames[1] && frames[1][2..] == payload;
  }

  /** A set succeeds on the rig's OK frame behind the echo, and fails on its rejection there. */
  lemma EchoThenVerdict(addr: byte, cmd: seq<byte>, more: seq<byte>, later: seq<byte>)
    requires addr != EOM && addr != CONTROLLER && EOM !in cmd && EOM !in more
    ensures var echo := Frame(addr, CONTROLLER, cmd);
      && Decide(Split(echo + (Frame(CONTROLLER, addr, [OK] + more) + later)).0, addr, None) == Reply(more)
      && Decide(Split(echo + (Frame(CONTROLLER, addr, [NG] + more) + later)).0, addr, None) == Rejected
  {
    AfterEcho(addr, cmd, [OK] + more, later);
    AfterEcho(addr, cmd, [NG] + more, later);
    assert ([OK] + more)[1..] == more;
  }

  /** Behind the echo of a set, the rig's next frame decides if it is OK or NG. */
  lemma AfterEcho(addr: byte, cmd: seq<byte>, payload: seq<byte>, later: seq<byte>)
    requires addr != EOM && addr != CONTROLLER && EOM !in cmd && EOM !in payload
    requires payload != [] && (payload[0] == OK || payload[0] == NG)
    ensures Decide(Split(Frame(addr, CONTROLLER, cmd) + (Frame(CONTROLLER, addr, payload) + later)).0, addr, None)
         == if payload[0] == OK then Reply(payload[1..]) else Rejected
  {
    hide FindPreamble, FindEnd, Split, FirstFrame, Frame;
    var reply := Frame(CONTROLLER, addr, payload) + later;
    FrameIsCut(addr, CONTROLLER, cmd, reply);
    FrameIsCut(CONTROLLER, addr, payload, later);
    var frames := Split(Frame(addr, CONTROLLER, cmd) + reply).0;
    assert frames[0] == [addr, CONTROLLER] + cmd && frames[1] == [CONTROLLER, addr] + payload;
    assert frames[1..][0] == frames[1] && frames[1][2..] == payload;
  }

  // ---- BCD frequencies ----

  function Pow100(i: nat): (p: nat)
    ensures p > 0
  {
    if i == 0 then 1 else 100 * Pow100(i - 1)
  }

  /** Two decimal digits in one byte. */
  function BcdByte(n: nat): (b: byte) {
    n / 10 % 10 * 16 + n % 10
  }

  function BcdValue(b: byte): (n: nat) {
    b / 16 * 10 + b % 16
  }

  predicate IsBcd(b: byte) {
    b / 16 < 10 && b % 16 < 10
  }

  /** The n low digit pairs of hz, lowest first. */
  function Bcd(hz: nat, n: nat): (b: seq<byte>)
    ensures |b| == n
  {
    if n == 0 then [] else [BcdByte(hz % 100)] + Bcd(hz / 100, n - 1)
  }

  /** The number such bytes stand for. */
  function Value(b: seq<byte>): nat {
    if b == [] then 0 else BcdValue(b[0]) + 100 * Value(b[1..])
  }

  /** `_freq_to_bcd`; a negative frequency is an error. */
  method FreqToBcd(hz: int) returns (r: Option<seq<byte>>)
    ensures r == if hz < 0 then None else Some(Bcd(hz, 5))
  {
    hide Bcd;
    if hz < 0 {
      return None;
    }
    var left := hz;
    var result: seq<byte> := [];
    for i := 0 to 5
      invariant left >= 0 && Bcd(hz, 5) == result + Bcd(left, 5 - i)
    {
      BcdStep(left, 5 - i);
      var lo := left % 10;
      left := left / 10;
      var hi := left % 10;
      left := left / 10;
      result := result + [hi * 16 + lo];
    }
    NoDigits(left);
    assert result + [] == result;
    r := Some(result);
  }

  lemma BcdStep(hz: nat, n: nat)
    requires n > 0
    ensures Bcd(hz, n) == [hz / 10 % 10 * 16 + hz % 10] + Bcd(hz / 10 / 10, n - 1)
  {
    assert hz % 100 / 10 % 10 == hz / 10 % 10 && hz % 100 % 10 == hz % 10 && hz / 100 == hz / 10 / 10;
  }

  lemma NoDigits(hz: nat)
    ensures Bcd(hz, 0) == []
  {}

  /** `_bcd_to_freq` on the first five bytes. */
  method BcdToFreq(data: seq<byte>) returns (freq: nat)
    ensures freq == Value(if |data| > 5 then data[..5] else data)
  {
    var bytes := if |data| > 5 then data[..5] else data;
    freq := 0;
    var scale := 1;
    for i := 0 to |bytes|
      invariant scale == Pow100(i) && scale > 0
      invariant freq + Scaled(Value(bytes[i..]), scale) == Value(bytes)
    {
      var lo := bytes[i] % 16;
      var hi := bytes[i] / 16 % 16;
      assert bytes[i..][1..] == bytes[i + 1..];
      assert bytes[i] / 16 % 16 == bytes[i] / 16;
      ScaleStep(hi * 10 + lo, Value(bytes[i + 1..]), scale);
      freq := freq + Scaled(hi * 10 + lo, scale);
      scale := scale * 100;
    }
  }

  function Scaled(n: nat, scale: nat): nat {
    n * scale
  }

  lemma ScaleStep(d: nat, rest: nat, scale: nat)
    ensures Scaled(d + 100 * rest, scale) == Scaled(d, scale) + Scaled(rest, scale * 100)
  {}

  lemma BcdOfByte(x: nat)
    requires x < 100
    ensures BcdValue(BcdByte(x)) == x && IsBcd(BcdByte(x))
  {}

  lemma ByteOfBcd(b: byte)
    requires IsBcd(b)
    ensures BcdValue(b) < 100 && BcdByte(BcdValue(b)) == b
  {}

  /** Main result. The low digits survive: decoding n encoded pairs gives hz modulo 100^n. */
  lemma {:induction false} BcdRoundTrip(hz: nat, n: nat)
    ensures Value(Bcd(hz, n)) == hz % Pow100(n)
    ensures forall i :: 0 <= i < n ==> IsBcd(Bcd(hz, n)[i])
  {
    hide BcdByte, BcdValue, IsBcd;
    if n > 0 {
      BcdRoundTrip(hz / 100, n - 1);
      assert Bcd(hz, n)[1..] == Bcd(hz / 100, n - 1);
      BcdOfByte(hz % 100);
      ModStep(hz, Pow100(n - 1));
      assert forall i :: 1 <= i < n ==> Bcd(hz, n)[i] == Bcd(hz / 100, n - 1)[i - 1];
    }
  }

  lemma ModStep(hz: nat, p: nat)
    requires p > 0
    ensures hz % (100 * p) == hz % 100 + 100 * (hz / 100 % p)
  {
    var a, b := hz / 100 / p, hz / 100 % p;
    var m := hz % 100 + 100 * b;
    Quotient(hz / 100, p);
    Hundred(a, p);
    Remainder(hz, 100 * p, a, m);
  }

  lemma Quotient(q: nat, p: nat)
    requires p > 0
    ensures q == Scaled(q / p, p) + q % p
  {}

  lemma Hundred(a: nat, p: nat)
    ensures 100 * Scaled(a, p) == Scaled(a, 100 * p)
  {}

  lemma Remainder(x: nat, d: nat, a: nat, m: nat)
    requires d > 0 && x == Scaled(a, d) + m && m < d
    ensures x % d == m
  {
    hide Scaled;
    var q, r := x / d, x % d;
    Quotient(x, d);
    if q > a {
      ScaledGap(q, a, d);
    } else if q < a {
      ScaledGap(a, q, d);
    }
  }

  lemma ScaledGap(q: nat, a: nat, d: nat)
    requires q > a
    ensures Scaled(q, d) >= Scaled(a, d) + d
  {
    assert (q - a - 1) * d >= 0;
  }

  /** Every string of BCD bytes is the encoding of its value. */
  lemma {:induction false} BcdInverse(b: seq<byte>)
    requires forall i :: 0 <= i < |b| ==> IsBcd(b[i])
    ensures Bcd(Value(b), |b|) == b
  {
    hide BcdByte, BcdValue, IsBcd;
    if b != [] {
      BcdInverse(b[1..]);
      ByteOfBcd(b[0]);
      Pair(BcdValue(b[0]), Value(b[1..]));
    }
  }

  lemma Pair(low: nat, high: nat)
    requires low < 100
    ensures (low + 100 * high) % 100 == low && (low + 100 * high) / 100 == high
  {}

  /** Main result. Asked for its frequency, a rig tuned to hz below 10^10 is read as hz,
      its reply arriving after the echo of the command. */
  lemma FrequencyIsRead(addr: byte, hz: nat, later: seq<byte>)
    requires addr != EOM && addr != CONTROLLER && hz < 10_000_000_000
    ensures var stream := Frame(addr, CONTROLLER, [3]) + (Frame(CONTROLLER, addr, [3] + Bcd(hz, 5)) + later);
      var v := Decide(Split(stream).0, addr, Some([3]));
      v.Reply? && |v.payload| >= 6 && Value(v.payload[1..6]) == hz
  {
    hide Decide, Split, Bcd, Value;
    BcdRoundTrip(hz, 5);
    TenDigits();
    var payload := [3] + Bcd(hz, 5);
    BcdHasNoMarks(Bcd(hz, 5));
    EchoThenReply(addr, [3], payload, later);
    assert payload[1..6] == Bcd(hz, 5);
  }

  lemma BcdHasNoMarks(b: seq<byte>)
    requires forall i :: 0 <= i < |b| ==> IsBcd(b[i])
    ensures EOM !in b && FE !in b && NG !in b && OK !in b
  {}

  lemma TenDigits()
    ensures Pow100(5) == 10_000_000_000
  {
    assert Pow100(5) == 100 * Pow100(4) && Pow100(4) == 100 * Pow100(3) && Pow100(3) == 100 * Pow100(2);
  }
}
