/** The streaming decoder: header hunt, decoding, completion and re-feeding of the audio
    after an image (core/decoder.py). */
module StreamDecoder {
  import opened Prelude
  import opened Rounding

  type Audio = seq<real>

  const IDLE_WINDOW_S := 3

  /** What the decoder needs of a mode: sync count, picture height and duration. */
  datatype Fields = Spec(mode: int, height: nat, imageHeight: nat, duration: real)

  /** Every shipped mode lasts well over two seconds. */
  type Spec = f: Fields | f.duration >= 2.0 witness Spec(0, 1, 1, 2.0)

  datatype Event =
    | ImageStarted(mode: int)
    | ImageProgress(mode: int, lines: nat, total: nat)
    | ImageComplete(mode: int)

  // ---- the grammar of events ----

  datatype Phase = Hunting | Image(mode: int, lines: nat)

  /** The phase after an event, None when the event is out of place: images do not
      overlap, and progress moves strictly forward without passing its total. */
  function Follow(p: Phase, e: Event): Option<Phase> {
    match (p, e)
    case (Hunting, ImageStarted(m)) => Some(Image(m, 0))
    case (Image(m, l), ImageProgress(m', lines, total)) =>
      if m == m' && l < lines <= total then Some(Image(m, lines)) else None
    case (Image(m, l), ImageComplete(m')) => if m == m' then Some(Hunting) else None
    case (_, _) => None
  }

  function FollowAll(p: Phase, events: seq<Event>): Option<Phase>
    decreases |events|
  {
    if events == [] then Some(p)
    else
      match Follow(p, events[0])
      case None => None
      case Some(q) => FollowAll(q, events[1..])
  }

  lemma {:induction false} FollowConcat(p: Phase, a: seq<Event>, b: seq<Event>)
    requires FollowAll(p, a).Some?
    ensures FollowAll(p, a + b) == FollowAll(FollowAll(p, a).value, b)
    decreases |a|
  {
    if a == [] {
      assert a + b == b;
    } else {
      FollowConcat(Follow(p, a[0]).value, a[1..], b);
      assert (a + b)[1..] == a[1..] + b;
    }
  }

  lemma FollowOne(p: Phase, e: Event)
    ensures FollowAll(p, [e]) == Follow(p, e)
  {
    assert [e][1..] == [];
  }

  lemma FollowSnoc(p: Phase, a: seq<Event>, e: Event)
    requires FollowAll(p, a + [e]).Some?
    ensures FollowAll(p, a).Some? && FollowAll(p, a + [e]) == Follow(FollowAll(p, a).value, e)
    decreases |a|
  {
    if a == [] {
      assert [] + [e] == [e];
      FollowOne(p, e);
    } else {
      assert (a + [e])[1..] == a[1..] + [e];
      FollowSnoc(Follow(p, a[0]).value, a[1..], e);
    }
  }

  /** Main result. Whatever follows the grammar is a row of images: an image in progress
      began with its own start, and since then only its progress was reported, each time
      with more lines than before. */
  lemma {:induction false} ImageHasItsStart(events: seq<Event>) returns (i: nat)
    requires FollowAll(Hunting, events).Some? && FollowAll(Hunting, events).value.Image?
    ensures i < |events| && events[i] == ImageStarted(FollowAll(Hunting, events).value.mode)
    ensures forall j :: i < j < |events| ==> Advances(events, i, j, FollowAll(Hunting, events).value)
    decreases |events|
  {
    var last := |events| - 1;
    var before := events[..last];
    assert events == before + [events[last]];
    FollowSnoc(Hunting, before, events[last]);
    if events[last].ImageStarted? {
      i := last;
    } else {
      i := ImageHasItsStart(before);
      forall j | i < j < |events| ensures Advances(events, i, j, FollowAll(Hunting, events).value) {
        if j < last {
          assert Advances(before, i, j, FollowAll(Hunting, before).value);
        } else if i + 1 < last {
          assert Advances(before, i, last - 1, FollowAll(Hunting, before).value);
        }
      }
    }
  }

  /** Event j is progress of the image, beyond the progress before it. */
  ghost predicate Advances(events: seq<Event>, i: nat, j: nat, p: Phase) {
    && i < j < |events| && p.Image? && events[j].ImageProgress? && events[j].mode == p.mode
    && events[j].lines <= p.lines && events[j].lines <= events[j].total
    && (j > i + 1 ==> events[j - 1].ImageProgress? && events[j - 1].lines < events[j].lines)
  }

  /** A completed image too: its start and nothing but its progress come before. */
  lemma CompletionHasItsStart(events: seq<Event>, k: nat) returns (i: nat)
    requires FollowAll(Hunting, events).Some? && k < |events| && events[k].ImageComplete?
    ensures i < k && events[i] == ImageStarted(events[k].mode)
    ensures forall j :: i < j < k ==> events[j].ImageProgress? && events[j].mode == events[k].mode
                                      && (j > i + 1 ==>
                                            events[j - 1].ImageProgress? && events[j - 1].lines < events[j].lines)
  {
    var upTo := events[..k] + [events[k]];
    assert events == upTo + events[k + 1..];
    PrefixFollows(Hunting, upTo, events[k + 1..]);
    FollowSnoc(Hunting, events[..k], events[k]);
    i := ImageHasItsStart(events[..k]);
    forall j | i < j < k
      ensures events[j].ImageProgress? && events[j].mode == events[k].mode
              && (j > i + 1 ==> events[j - 1].ImageProgress? && events[j - 1].lines < events[j].lines)
    {
      assert Advances(events[..k], i, j, FollowAll(Hunting, events[..k]).value);
    }
  }

  lemma {:induction false} PrefixFollows(p: Phase, a: seq<Event>, b: seq<Event>)
    requires FollowAll(p, a + b).Some?
    ensures FollowAll(p, a).Some?
    decreases |a|
  {
    if a != [] {
      assert (a + b)[0] == a[0] && (a + b)[1..] == a[1..] + b;
      PrefixFollows(Follow(p, a[0]).value, a[1..], b);
    }
  }

  // ---- the parts taken as given ----

  datatype Vis = Vis(code: int, end: nat)

  /** What the incremental backend answers to its latest chunk. */
  datatype Response = Response(rows: seq<nat>, complete: bool)

  /** Filter and header detection; the mode table; the incremental backend as a function
      of its chunks so far; the batch decoder's line count; and what each look at the
      cancel event shows. */
  datatype Parts = Parts(
    fs: nat, incrementalDecode: bool,
    detectVis: Audio -> Option<Vis>, modeFromVis: int -> Option<Spec>,
    backend: (Spec, nat, seq<Audio>) -> Response, partialDecode: (Spec, nat, Audio) -> Option<nat>,
    cancelSeen: nat -> bool)
  {
    /** Rows stay inside the picture. */
    ghost predicate Good() {
      && fs > 0
      && (forall s: Spec, v: nat, chunks: seq<Audio> :: forall i :: 0 <= i < |backend(s, v, chunks).rows| ==>
            backend(s, v, chunks).rows[i] < s.imageHeight)
    }
  }

  // ---- what one feed does ----

  /** The decoder's fields; `audio` is the retained audio, `looks` counts the looks at
      the cancel event. A locked mode means the decoding state. */
  datatype Now = Now(
    audio: Audio, spec: Option<Spec>, visEnd: nat, lastLines: nat, incremental: Option<seq<Audio>>, maxRow: nat,
    trimmed: bool, lastComplete: Option<Audio>, looks: nat)

  const INIT := Now([], None, 0, 0, None, 0, false, None, 0)

  predicate WellFormed(p: Parts, s: Now) {
    && (s.spec.None? ==> s.maxRow == 0 && !s.trimmed)
    && (s.incremental.Some? <==> s.spec.Some? && p.incrementalDecode)
  }

  /** The state as the reader of the events sees it. */
  function Seen(p: Parts, s: Now): Phase {
    if s.spec.Some? then Image(s.spec.value.mode, if p.incrementalDecode then s.maxRow else s.lastLines) else Hunting
  }

  /** One and a half image durations and ten seconds. */
  function Cap(p: Parts, spec: Spec): (c: int)
    ensures c >= 0 && c as real <= (spec.duration * 1.5 + 10.0) * p.fs as real < c as real + 1.0
  {
    CapNotNegative(spec.duration, p.fs as real);
    Trunc((spec.duration * 1.5 + 10.0) * p.fs as real)
  }

  /** `_enforce_decoding_buffer_cap`. */
  function Capped(p: Parts, s: Now): (r: Now)
    ensures |r.audio| <= |s.audio|
  {
    if s.spec.None? || !p.incrementalDecode then s
    else
      var cap := Cap(p, s.spec.value);
      if |s.audio| <= cap then s else s.(audio := s.audio[|s.audio| - cap..], trimmed := true)
  }

  lemma CapNotNegative(duration: real, fs: real)
    requires duration >= 2.0 && fs >= 0.0
    ensures Trunc((duration * 1.5 + 10.0) * fs) >= 0
    ensures Trunc((duration * 1.5 + 10.0) * fs) as real <= (duration * 1.5 + 10.0) * fs
  {
    assert (duration * 1.5 + 10.0) * fs >= 0.0;
  }

  /** `reset`. */
  function Reset(s: Now): Now {
    INIT.(lastComplete := s.lastComplete, looks := s.looks)
  }

  /** The sample after which the audio is fed again: a little before the image's end. */
  function EndEstimate(p: Parts, spec: Spec, visEnd: nat): (e: int)
    ensures p.fs > 0 ==> e >= 1
  {
    EndIsPositive(visEnd, spec.duration, p.fs as real);
    Trunc(visEnd as real + spec.duration * p.fs as real * 0.995 - 0.1 * p.fs as real)
  }

  lemma EndIsPositive(visEnd: nat, duration: real, fs: real)
    requires duration >= 2.0 && fs >= 0.0
    ensures fs >= 1.0 ==> Trunc(visEnd as real + duration * fs * 0.995 - 0.1 * fs) >= 1
  {
    assert duration * fs >= 2.0 * fs;
  }

  /** The progress events for the backend's rows: only those that advance. */
  function Progress(rows: seq<nat>, maxRow: nat, mode: int, height: nat): seq<Event> {
    if rows == [] then []
    else if rows[0] + 1 <= maxRow then Progress(rows[1..], maxRow, mode, height)
    else [ImageProgress(mode, Min(rows[0] + 1, height), height)] + Progress(rows[1..], rows[0] + 1, mode, height)
  }

  function MaxRow(rows: seq<nat>, maxRow: nat): nat {
    if rows == [] then maxRow else MaxRow(rows[1..], Max(rows[0] + 1, maxRow))
  }

  /** `feed`: the next state and the events. */
  function Fed(p: Parts, s: Now, samples: Audio): (Now, seq<Event>)
    requires p.Good() && WellFormed(p, s)
    decreases |s.audio| + |samples|, 4
  {
    var t := if |samples| > 0 then Capped(p, s.(audio := s.audio + samples)) else s;
    if |t.audio| == 0 then (t, [])
    else if t.spec.None? then Hunted(p, t)
    else if p.incrementalDecode then Streamed(p, t, samples)
    else Redecoded(p, t)
  }

  /** `_feed_idle`: a rolling window without a header, a short preamble behind an unknown
      code, and the start of an image behind a known one. */
  function Hunted(p: Parts, s: Now): (Now, seq<Event>)
    requires p.Good() && WellFormed(p, s) && s.spec.None?
    decreases |s.audio|, 3
  {
    var n := |s.audio|;
    match p.detectVis(s.audio)
    case None => (s.(audio := s.audio[Max(0, n - IDLE_WINDOW_S * p.fs)..]), [])
    case Some(vis) =>
      match p.modeFromVis(vis.code)
      case None => (s.(audio := s.audio[Min(Max(0, vis.end - Trunc(0.2 * p.fs as real)), n)..]), [])
      case Some(spec) =>
        var cut := Min(vis.end, n);
        var t := s.(spec := Some(spec), visEnd := vis.end, lastLines := 0);
        var (r, events) :=
          if p.incrementalDecode
          then Streamed(p, t.(incremental := Some(if cut > 0 then [s.audio[..cut]] else [])), s.audio[cut..])
          else Redecoded(p, t);
        (r, [ImageStarted(spec.mode)] + events)
  }

  /** `_feed_decoding_incremental`. */
  function Streamed(p: Parts, s: Now, newAudio: Audio): (Now, seq<Event>)
    requires p.Good() && WellFormed(p, s) && s.incremental.Some?
    decreases |s.audio|, 2
  {
    var t := s.(looks := s.looks + 1);
    if p.cancelSeen(s.looks) || |newAudio| == 0 then (t, [])
    else
      var spec, chunks := s.spec.value, s.incremental.value + [newAudio];
      var response := p.backend(spec, s.visEnd, chunks);
      var events := Progress(response.rows, s.maxRow, spec.mode, spec.imageHeight);
      var u := t.(incremental := Some(chunks), maxRow := MaxRow(response.rows, s.maxRow));
      if !response.complete then (u, events)
      else
        var (r, more) := Completed(p, u.(lastComplete := if s.trimmed then None else Some(s.audio)));
        (r, events + more)
  }

  /** `_decode_progress` on everything retained. */
  function Redecoded(p: Parts, s: Now): (Now, seq<Event>)
    requires p.Good() && WellFormed(p, s) && s.spec.Some? && !p.incrementalDecode
    decreases |s.audio|, 2
  {
    var t := s.(looks := s.looks + 1);
    if p.cancelSeen(s.looks) then (t, [])
    else
      var spec := s.spec.value;
      match p.partialDecode(spec, s.visEnd, s.audio)
      case None => (t, [])
      case Some(lines) =>
        if lines <= s.lastLines then (t, [])
        else if lines < spec.height then (t.(lastLines := lines), [ImageProgress(spec.mode, lines, spec.height)])
        else Completed(p, t.(lastLines := lines, lastComplete := Some(s.audio)))
  }

  /** The completion event, then `_reset_and_refeed_tail`: the audio behind the image goes
      back through `feed`, unless the cap has cut the retained audio. */
  function Completed(p: Parts, s: Now): (Now, seq<Event>)
    requires p.Good() && s.spec.Some?
    decreases |s.audio|, 1
  {
    var done := [ImageComplete(s.spec.value.mode)];
    var end := EndEstimate(p, s.spec.value, s.visEnd);
    if s.trimmed || end >= |s.audio| then (Reset(s), done)
    else
      var (r, more) := Fed(p, Reset(s), s.audio[end..]);
      (r, done + more)
  }

  // ---- events follow the grammar ----

  lemma {:induction false} ProgressFollows(rows: seq<nat>, maxRow: nat, mode: int, height: nat)
    requires forall i :: 0 <= i < |rows| ==> rows[i] < height
    ensures FollowAll(Image(mode, maxRow), Progress(rows, maxRow, mode, height))
      == Some(Image(mode, MaxRow(rows, maxRow)))
  {
    if rows != [] {
      ProgressFollows(rows[1..], Max(rows[0] + 1, maxRow), mode, height);
    }
  }

  /** Main result. Every feed leaves a well-formed state, and its events continue the
      grammar from what the reader has seen before to what the new state stands for. */
  lemma {:induction false} FeedFollows(p: Parts, s: Now, samples: Audio)
    requires p.Good() && WellFormed(p, s)
    ensures var (r, events) := Fed(p, s, samples);
      WellFormed(p, r) && FollowAll(Seen(p, s), events) == Some(Seen(p, r))
    decreases |s.audio| + |samples|, 4
  {
    hide Hunted, Streamed, Redecoded;
    var t := if |samples| > 0 then Capped(p, s.(audio := s.audio + samples)) else s;
    if |t.audio| > 0 {
      if t.spec.None? {
        HuntFollows(p, t);
      } else if p.incrementalDecode {
        StreamFollows(p, t, samples);
      } else {
        RedecodeFollows(p, t);
      }
    }
  }

  lemma {:induction false} HuntFollows(p: Parts, s: Now)
    requires p.Good() && WellFormed(p, s) && s.spec.None?
    ensures var (r, events) := Hunted(p, s);
      WellFormed(p, r) && FollowAll(Hunting, events) == Some(Seen(p, r))
    decreases |s.audio|, 3
  {
    hide Streamed, Redecoded;
    var vis := p.detectVis(s.audio);
    if vis.Some? && p.modeFromVis(vis.value.code).Some? {
      var spec := p.modeFromVis(vis.value.code).value;
      var cut := Min(vis.value.end, |s.audio|);
      var t := s.(spec := Some(spec), visEnd := vis.value.end, lastLines := 0);
      var events;
      if p.incrementalDecode {
        var u := t.(incremental := Some(if cut > 0 then [s.audio[..cut]] else []));
        StreamFollows(p, u, s.audio[cut..]);
        events := Streamed(p, u, s.audio[cut..]).1;
      } else {
        RedecodeFollows(p, t);
        events := Redecoded(p, t).1;
      }
      FollowOne(Hunting, ImageStarted(spec.mode));
      FollowConcat(Hunting, [ImageStarted(spec.mode)], events);
    }
  }

  lemma {:induction false} StreamFollows(p: Parts, s: Now, newAudio: Audio)
    requires p.Good() && WellFormed(p, s) && s.incremental.Some?
    ensures var (r, events) := Streamed(p, s, newAudio);
      WellFormed(p, r) && FollowAll(Seen(p, s), events) == Some(Seen(p, r))
    decreases |s.audio|, 2
  {
    hide Completed, Progress;
    if !p.cancelSeen(s.looks) && |newAudio| > 0 {
      var spec, chunks := s.spec.value, s.incremental.value + [newAudio];
      var response := p.backend(spec, s.visEnd, chunks);
      ProgressFollows(response.rows, s.maxRow, spec.mode, spec.imageHeight);
      if response.complete {
        var u := s.(looks := s.looks + 1, incremental := Some(chunks), maxRow := MaxRow(response.rows, s.maxRow),
                    lastComplete := if s.trimmed then None else Some(s.audio));
        CompleteFollows(p, u, u.maxRow);
        FollowConcat(Seen(p, s), Progress(response.rows, s.maxRow, spec.mode, spec.imageHeight), Completed(p, u).1);
      }
    }
  }

  lemma {:induction false} RedecodeFollows(p: Parts, s: Now)
    requires p.Good() && WellFormed(p, s) && s.spec.Some? && !p.incrementalDecode
    ensures var (r, events) := Redecoded(p, s);
      WellFormed(p, r) && FollowAll(Seen(p, s), events) == Some(Seen(p, r))
    decreases |s.audio|, 2
  {
    hide Completed;
    var spec := s.spec.value;
    var lines := p.partialDecode(spec, s.visEnd, s.audio);
    if !p.cancelSeen(s.looks) && lines.Some? && lines.value > s.lastLines {
      if lines.value < spec.height {
        FollowOne(Seen(p, s), ImageProgress(spec.mode, lines.value, spec.height));
      } else {
        CompleteFollows(p, s.(looks := s.looks + 1, lastLines := lines.value, lastComplete := Some(s.audio)),
            s.lastLines);
      }
    }
  }

  lemma {:induction false} CompleteFollows(p: Parts, s: Now, lines: nat)
    requires p.Good() && s.spec.Some?
    ensures var (r, events) := Completed(p, s);
      WellFormed(p, r) && FollowAll(Image(s.spec.value.mode, lines), events) == Some(Seen(p, r))
    decreases |s.audio|, 1
  {
    hide Fed;
    var done := ImageComplete(s.spec.value.mode);
    FollowOne(Image(s.spec.value.mode, lines), done);
    var end := EndEstimate(p, s.spec.value, s.visEnd);
    if !s.trimmed && end < |s.audio| {
      FeedFollows(p, Reset(s), s.audio[end..]);
      FollowConcat(Image(s.spec.value.mode, lines), [done], Fed(p, Reset(s), s.audio[end..]).1);
    }
  }

  // ---- a sequence of feeds ----

  /** The state and all events after feeding the chunks one by one. */
  function FedAll(p: Parts, chunks: seq<Audio>): (r: (Now, seq<Event>))
    requires p.Good()
    ensures WellFormed(p, r.0) && FollowAll(Hunting, r.1) == Some(Seen(p, r.0))
  {
    if chunks == [] then (INIT, [])
    else
      var (s, before) := FedAll(p, chunks[..|chunks| - 1]);
      var (r, events) := Fed(p, s, chunks[|chunks| - 1]);
      FeedFollows(p, s, chunks[|chunks| - 1]);
      FollowConcat(Hunting, before, events);
      (r, before + events)
  }

  /** Main result. Over any sequence of feeds every completed image has its start before
      it, with nothing but its own, strictly advancing progress in between. */
  lemma ImagesAreWhole(p: Parts, chunks: seq<Audio>, k: nat) returns (i: nat)
    requires p.Good() && k < |FedAll(p, chunks).1| && FedAll(p, chunks).1[k].ImageComplete?
    ensures var events := FedAll(p, chunks).1;
      && i < k && events[i] == ImageStarted(events[k].mode)
      && forall j :: i < j < k ==> events[j].ImageProgress? && events[j].mode == events[k].mode
                                   && (j > i + 1 ==> events[j - 1].lines < events[j].lines)
  {
    hide FedAll;
    i := CompletionHasItsStart(FedAll(p, chunks).1, k);
  }

  // ---- which audio is retained ----

  function Flatten(chunks: seq<Audio>): Audio {
    if chunks == [] then [] else Flatten(chunks[..|chunks| - 1]) + chunks[|chunks| - 1]
  }

  lemma FlattenOne(a: Audio)
    ensures Flatten([a]) == a
  {
    assert [a][..0] == [];
    assert [] + a == a;
  }

  lemma FlattenSnoc(chunks: seq<Audio>, a: Audio)
    ensures Flatten(chunks + [a]) == Flatten(chunks) + a
  {
    assert (chunks + [a])[..|chunks|] == chunks;
  }

  /** a is the end of b. */
  predicate IsSuffix(a: Audio, b: Audio) {
    |a| <= |b| && a == b[|b| - |a|..]
  }

  lemma SuffixLength(a: Audio, b: Audio)
    ensures IsSuffix(a, b) ==> |a| <= |b|
  {}

  lemma SuffixOfSuffix(a: Audio, b: Audio, c: Audio)
    requires IsSuffix(a, b) && IsSuffix(b, c)
    ensures IsSuffix(a, c)
  {}

  lemma DropIsSuffix(a: Audio, n: nat)
    requires n <= |a|
    ensures IsSuffix(a[n..], a) && IsSuffix(a, a) && IsSuffix([], a)
  {}

  lemma SuffixOfMore(a: Audio, b: Audio, more: Audio)
    requires IsSuffix(a, b)
    ensures IsSuffix(a + more, b + more)
  {}

  /** The mode being decoded is one of the table. */
  ghost predicate Listed(p: Parts, s: Now) {
    s.spec.Some? ==> exists code :: p.modeFromVis(code) == s.spec
  }

  /** Behind a header with an unknown code at most a rolling window is left. */
  ghost predicate LateFalseHeaders(p: Parts) {
    forall a: Audio :: p.detectVis(a).Some? && p.modeFromVis(p.detectVis(a).value.code).None? ==>
      |a| - Min(Max(0, p.detectVis(a).value.end - Trunc(0.2 * p.fs as real)), |a|) <= IDLE_WINDOW_S * p.fs
  }

  ghost predicate NeverCancelled(p: Parts) {
    forall i: nat :: !p.cancelSeen(i)
  }

  /** The backend was given all of the image's audio, up to `more`: what is retained, and
      what the cap has cut from its front. */
  ghost predicate Backed(p: Parts, s: Now, more: Audio) {
    NeverCancelled(p) && s.incremental.Some? ==>
      var given := Flatten(s.incremental.value) + more;
      IsSuffix(s.audio, given) && (!s.trimmed ==> s.audio == given)
  }

  /** r retains the end of `whole`, without an image at most a rolling window of it, and in an
      image, of a known mode, what the backend was given. */
  ghost predicate Tidy(p: Parts, r: Now, whole: Audio) {
    && IsSuffix(r.audio, whole)
    && Backed(p, r, [])
    && (LateFalseHeaders(p) && r.spec.None? ==> |r.audio| <= IDLE_WINDOW_S * p.fs)
    && Listed(p, r)
  }

  lemma {:induction false} FeedIsTidy(p: Parts, s: Now, samples: Audio)
    requires p.Good() && WellFormed(p, s) && Listed(p, s) && Backed(p, s, [])
    ensures Tidy(p, Fed(p, s, samples).0, s.audio + samples)
    ensures s.spec.Some? && p.incrementalDecode && |samples| > 0
      ==> |Fed(p, s, samples).0.audio| <= Cap(p, s.spec.value)
    decreases |s.audio| + |samples|, 4
  {
    hide Hunted, Streamed, Redecoded, Cap, LateFalseHeaders, IsSuffix, Backed, Flatten;
    var t := if |samples| > 0 then Capped(p, s.(audio := s.audio + samples)) else s;
    CappedBacked(p, s, samples);
    NothingBacked(p, t, samples);
    if |t.audio| > 0 {
      if t.spec.None? {
        HuntIsTidy(p, t);
      } else if p.incrementalDecode {
        StreamIsTidy(p, t, samples);
      } else {
        RedecodeIsTidy(p, t);
      }
      SuffixOfSuffix(Fed(p, s, samples).0.audio, t.audio, s.audio + samples);
      SuffixLength(Fed(p, s, samples).0.audio, t.audio);
    }
  }

  /** The audio after the cap is the end of the audio before it. */
  lemma CappedBacked(p: Parts, s: Now, samples: Audio)
    requires p.Good() && WellFormed(p, s) && Backed(p, s, [])
    ensures var t := if |samples| > 0 then Capped(p, s.(audio := s.audio + samples)) else s;
      IsSuffix(t.audio, s.audio + samples) && Backed(p, t, samples)
  {
    hide Cap, Flatten;
    var more := s.(audio := s.audio + samples);
    var t := if |samples| > 0 then Capped(p, more) else s;
    if |samples| == 0 {
      assert s.audio + samples == s.audio;
    }
    if NeverCancelled(p) && s.incremental.Some? {
      var given := Flatten(s.incremental.value);
      assert given + [] == given;
      SuffixOfMore(s.audio, given, samples);
      SuffixOfSuffix(t.audio, s.audio + samples, given + samples);
    }
  }

  lemma NothingBacked(p: Parts, s: Now, more: Audio)
    ensures s.incremental.None? ==> Backed(p, s, [])
    ensures s.audio == [] && Backed(p, s, more) ==> Backed(p, s, [])
  {
    hide Flatten, IsSuffix;
    if s.incremental.Some? && s.audio == [] && Backed(p, s, more) {
      var given := Flatten(s.incremental.value);
      BothEmpty(given, more);
      DropIsSuffix(given + [], 0);
    }
  }

  lemma BothEmpty(a: Audio, b: Audio)
    ensures a + b == [] ==> a + [] == []
  {}

  lemma {:induction false} HuntIsTidy(p: Parts, s: Now)
    requires p.Good() && WellFormed(p, s) && s.spec.None?
    ensures Tidy(p, Hunted(p, s).0, s.audio)
    decreases |s.audio|, 3
  {
    hide Streamed, Redecoded, Flatten, Tidy, IsSuffix, LateFalseHeaders;
    var vis := p.detectVis(s.audio);
    if vis.Some? && p.modeFromVis(vis.value.code).Some? {
      var cut := Min(vis.value.end, |s.audio|);
      var t := s.(spec := p.modeFromVis(vis.value.code), visEnd := vis.value.end, lastLines := 0);
      CutInTwo(s.audio, cut);
      if p.incrementalDecode {
        StreamIsTidy(p, t.(incremental := Some(if cut > 0 then [s.audio[..cut]] else [])), s.audio[cut..]);
      } else {
        RedecodeIsTidy(p, t);
      }
    } else {
      WindowIsTidy(p, s);
    }
  }

  /** Without a known header the end of the audio stays. */
  lemma WindowIsTidy(p: Parts, s: Now)
    requires p.Good() && WellFormed(p, s) && s.spec.None?
    requires p.detectVis(s.audio).Some? ==> p.modeFromVis(p.detectVis(s.audio).value.code).None?
    ensures Tidy(p, Hunted(p, s).0, s.audio)
  {
    hide Flatten, IsSuffix, Streamed, Redecoded;
    var r, n := Hunted(p, s).0, |s.audio|;
    NothingBacked(p, r, []);
    match p.detectVis(s.audio)
    case None => DropIsSuffix(s.audio, Max(0, n - IDLE_WINDOW_S * p.fs));
    case Some(vis) => DropIsSuffix(s.audio, Min(Max(0, vis.end - Trunc(0.2 * p.fs as real)), n));
  }

  /** The first two pieces given to the backend are all the audio there is. */
  lemma CutInTwo(a: Audio, cut: nat)
    requires cut <= |a|
    ensures Flatten(if cut > 0 then [a[..cut]] else []) + a[cut..] == a && IsSuffix(a, a)
  {
    FlattenOne(a[..cut]);
    assert a[..cut] + a[cut..] == a;
  }

  lemma {:induction false} StreamIsTidy(p: Parts, s: Now, newAudio: Audio)
    requires p.Good() && WellFormed(p, s) && s.incremental.Some? && Listed(p, s) && Backed(p, s, newAudio)
    ensures Tidy(p, Streamed(p, s, newAudio).0, s.audio)
    decreases |s.audio|, 2
  {
    hide Completed, Progress, LateFalseHeaders, Flatten, MaxRow, Tidy, Backed, Listed, IsSuffix;
    var t := s.(looks := s.looks + 1);
    if p.cancelSeen(s.looks) || |newAudio| == 0 {
      SameIsTidy(p, s, t, newAudio);
    } else {
      var chunks := s.incremental.value + [newAudio];
      var response := p.backend(s.spec.value, s.visEnd, chunks);
      var u := t.(incremental := Some(chunks), maxRow := MaxRow(response.rows, s.maxRow));
      GivenIsTidy(p, s, u, newAudio);
      CompleteIsTidy(p, u.(lastComplete := if s.trimmed then None else Some(s.audio)));
    }
  }

  /** Without new audio, or with a cancel, nothing of this changes. */
  lemma SameIsTidy(p: Parts, s: Now, t: Now, newAudio: Audio)
    requires s.incremental.Some? && s.spec.Some? && Listed(p, s) && Backed(p, s, newAudio)
    requires t.audio == s.audio && t.spec == s.spec && t.incremental == s.incremental && t.trimmed == s.trimmed
    requires newAudio == [] || !NeverCancelled(p)
    ensures Tidy(p, t, s.audio)
  {
    hide Flatten, LateFalseHeaders;
    DropIsSuffix(s.audio, 0);
  }

  lemma GivenIsTidy(p: Parts, s: Now, u: Now, newAudio: Audio)
    requires s.incremental.Some? && s.spec.Some? && Listed(p, s) && Backed(p, s, newAudio)
    requires u.audio == s.audio && u.spec == s.spec && u.trimmed == s.trimmed
    requires u.incremental == Some(s.incremental.value + [newAudio])
    ensures Tidy(p, u, s.audio)
  {
    hide Flatten, LateFalseHeaders;
    DropIsSuffix(s.audio, 0);
    GivenMore(s.incremental.value, newAudio);
  }

  lemma GivenMore(chunks: seq<Audio>, a: Audio)
    ensures Flatten(chunks + [a]) == Flatten(chunks) + a && Flatten(chunks) + a + [] == Flatten(chunks) + a
    ensures a == [] ==> Flatten(chunks) + a == Flatten(chunks)
  {
    FlattenSnoc(chunks, a);
  }

  lemma {:induction false} RedecodeIsTidy(p: Parts, s: Now)
    requires p.Good() && WellFormed(p, s) && s.spec.Some? && !p.incrementalDecode && Listed(p, s)
    ensures Tidy(p, Redecoded(p, s).0, s.audio)
    decreases |s.audio|, 2
  {
    hide Completed, LateFalseHeaders, Flatten, Tidy, Listed, IsSuffix;
    var t := s.(looks := s.looks + 1);
    var lines := p.partialDecode(s.spec.value, s.visEnd, s.audio);
    BatchIsTidy(p, s, t);
    if lines.Some? {
      BatchIsTidy(p, s, t.(lastLines := lines.value));
      CompleteIsTidy(p, t.(lastLines := lines.value, lastComplete := Some(s.audio)));
    }
  }

  lemma BatchIsTidy(p: Parts, s: Now, t: Now)
    requires s.spec.Some? && s.incremental.None? && Listed(p, s)
    requires t.audio == s.audio && t.spec == s.spec && t.incremental == s.incremental
    ensures Tidy(p, t, s.audio)
  {
    hide LateFalseHeaders;
    DropIsSuffix(s.audio, 0);
  }

  lemma {:induction false} CompleteIsTidy(p: Parts, s: Now)
    requires p.Good() && s.spec.Some?
    ensures Tidy(p, Completed(p, s).0, s.audio)
    decreases |s.audio|, 1
  {
    hide Fed, LateFalseHeaders, Flatten;
    DropIsSuffix(s.audio, 0);
    var end := EndEstimate(p, s.spec.value, s.visEnd);
    if !s.trimmed && end < |s.audio| {
      FeedIsTidy(p, Reset(s), s.audio[end..]);
      DropIsSuffix(s.audio, end);
      assert [] + s.audio[end..] == s.audio[end..];
      SuffixOfSuffix(Completed(p, s).0.audio, s.audio[end..], s.audio);
    }
  }

  lemma {:induction false} RunIsTidy(p: Parts, chunks: seq<Audio>)
    requires p.Good()
    ensures Listed(p, FedAll(p, chunks).0) && Backed(p, FedAll(p, chunks).0, [])
    ensures IsSuffix(FedAll(p, chunks).0.audio, Flatten(chunks))
  {
    hide Fed, IsSuffix, Backed, LateFalseHeaders;
    if chunks == [] {
      DropIsSuffix([], 0);
      NothingBacked(p, INIT, []);
    } else {
      var last := |chunks| - 1;
      var before := FedAll(p, chunks[..last]).0;
      RunIsTidy(p, chunks[..last]);
      FeedIsTidy(p, before, chunks[last]);
      SuffixOfMore(before.audio, Flatten(chunks[..last]), chunks[last]);
      SuffixOfSuffix(FedAll(p, chunks).0.audio, before.audio + chunks[last], Flatten(chunks));
    }
  }

  /** Main result. Over any sequence of feeds: what a non-empty feed leaves is within the
      cap of the image it began in, if it began in one, whatever it ends in. */
  lemma RetainedIsBounded(p: Parts, chunks: seq<Audio>, chunk: Audio)
    requires p.Good() && p.incrementalDecode && |chunk| > 0
    ensures var before, after := FedAll(p, chunks).0, FedAll(p, chunks + [chunk]).0;
      && (before.spec.Some? ==> |after.audio| <= Cap(p, before.spec.value))
      && (before.spec.None? ==> |after.audio| <= |before.audio| + |chunk|)
  {
    hide Fed, Cap, LateFalseHeaders;
    assert (chunks + [chunk])[..|chunks|] == chunks;
    RunIsTidy(p, chunks);
    FeedIsTidy(p, FedAll(p, chunks).0, chunk);
  }

  /** Main result. Over any sequence of feeds: what is retained is always the newest audio,
      and while an image is decoded without a cancel the backend has been given everything
      from the same place on, of which the cap has cut at most the front. */
  lemma RetainedIsNewest(p: Parts, chunks: seq<Audio>)
    requires p.Good()
    ensures var s := FedAll(p, chunks).0;
      && IsSuffix(s.audio, Flatten(chunks))
      && (NeverCancelled(p) && s.incremental.Some? ==>
            && IsSuffix(s.audio, Flatten(s.incremental.value))
            && (!s.trimmed ==> s.audio == Flatten(s.incremental.value)))
  {
    hide FedAll, Flatten, IsSuffix;
    RunIsTidy(p, chunks);
    var s := FedAll(p, chunks).0;
    if s.incremental.Some? {
      assert Flatten(s.incremental.value) + [] == Flatten(s.incremental.value);
    }
  }

  /** The last n samples. */
  function LastOf(a: Audio, n: nat): Audio {
    a[Max(0, |a| - n)..]
  }

  /** While an image goes on, the cap keeps exactly the newest audio. */
  lemma CapKeepsNewest(p: Parts, s: Now, samples: Audio)
    requires p.Good() && WellFormed(p, s) && s.spec.Some? && p.incrementalDecode && |samples| > 0
    requires forall m :: ImageComplete(m) !in Fed(p, s, samples).1
    ensures Fed(p, s, samples).0.audio == LastOf(s.audio + samples, Cap(p, s.spec.value))
  {
    hide Cap, Completed, Progress;
    var more := s.(audio := s.audio + samples);
    var t := Capped(p, more);
    CapIsPositive(p, s.spec.value);
    StreamKeepsAll(p, t, samples);
  }

  lemma CapIsPositive(p: Parts, spec: Spec)
    requires p.Good()
    ensures Cap(p, spec) >= 1
  {
    assert (spec.duration * 1.5 + 10.0) * p.fs as real >= p.fs as real;
  }

  // ---- a header is never lost ----

  /** What the header detector is given at feed n, as long as it found nothing before: the
      rolling window of all that was fed, and the new chunk. */
  function Window(p: Parts, chunks: seq<Audio>, n: nat): Audio
    requires n < |chunks|
  {
    LastOf(Flatten(chunks[..n]), IDLE_WINDOW_S * p.fs) + chunks[n]
  }

  /** No feed so far held a header. */
  ghost predicate NoHeader(p: Parts, chunks: seq<Audio>) {
    forall n :: 0 <= n < |chunks| && Window(p, chunks, n) != [] ==> p.detectVis(Window(p, chunks, n)).None?
  }

  lemma LastOfLast(a: Audio, b: Audio, n: nat)
    ensures LastOf(LastOf(a, n) + b, n) == LastOf(a + b, n)
  {}

  /** Main result. As long as no header was found, exactly the newest window is retained and
      nothing is reported. */
  lemma {:induction false} HuntKeepsNewest(p: Parts, chunks: seq<Audio>)
    requires p.Good() && NoHeader(p, chunks)
    ensures FedAll(p, chunks) == (INIT.(audio := LastOf(Flatten(chunks), IDLE_WINDOW_S * p.fs)), [])
  {
    hide LastOf, Flatten, Streamed, Redecoded;
    if chunks == [] {
      NothingYet(IDLE_WINDOW_S * p.fs);
    } else {
      var last := |chunks| - 1;
      NoHeaderBefore(p, chunks);
      HuntKeepsNewest(p, chunks[..last]);
      WholeChunks(chunks);
      assert Window(p, chunks, last) == LastOf(Flatten(chunks[..last]), IDLE_WINDOW_S * p.fs) + chunks[last];
      LastOfLast(Flatten(chunks[..last]), chunks[last], IDLE_WINDOW_S * p.fs);
      FeedWithoutHeader(p, INIT.(audio := LastOf(Flatten(chunks[..last]), IDLE_WINDOW_S * p.fs)), chunks[last]);
    }
  }

  lemma NothingYet(n: nat)
    ensures LastOf(Flatten([]), n) == []
  {}

  lemma WholeChunks(chunks: seq<Audio>)
    requires chunks != []
    ensures Flatten(chunks) == Flatten(chunks[..|chunks| - 1]) + chunks[|chunks| - 1]
  {}

  lemma NoHeaderBefore(p: Parts, chunks: seq<Audio>)
    requires chunks != [] && NoHeader(p, chunks)
    ensures NoHeader(p, chunks[..|chunks| - 1])
  {
    hide LastOf;
    var before := chunks[..|chunks| - 1];
    forall n | 0 <= n < |before| && Window(p, before, n) != [] ensures p.detectVis(Window(p, before, n)).None? {
      assert before[..n] == chunks[..n];
      assert Window(p, before, n) == Window(p, chunks, n);
    }
  }

  lemma FeedWithoutHeader(p: Parts, s: Now, samples: Audio)
    requires p.Good() && s.spec.None? && WellFormed(p, s)
    requires s.audio + samples != [] ==> p.detectVis(s.audio + samples).None?
    ensures Fed(p, s, samples) == (s.(audio := LastOf(s.audio + samples, IDLE_WINDOW_S * p.fs)), [])
  {
    hide Streamed, Redecoded;
    if samples == [] {
      assert s.audio + samples == s.audio;
    }
  }

  /** Main result. A known header anywhere in the newest window and chunk starts its image in
      that very feed, with the whole of them to decode. */
  lemma HeaderIsFound(p: Parts, chunks: seq<Audio>, chunk: Audio)
    requires p.Good() && NoHeader(p, chunks) && Window(p, chunks + [chunk], |chunks|) != []
    requires var vis := p.detectVis(Window(p, chunks + [chunk], |chunks|));
      vis.Some? && p.modeFromVis(vis.value.code).Some?
    ensures var a := Window(p, chunks + [chunk], |chunks|);
      var mode := p.modeFromVis(p.detectVis(a).value.code).value.mode;
      var (r, events) := FedAll(p, chunks + [chunk]);
      && events != [] && events[0] == ImageStarted(mode)
      && ((forall m :: ImageComplete(m) !in events) ==> r.spec.Some? && r.spec.value.mode == mode && r.audio == a)
  {
    hide LastOf, Flatten, Streamed, Redecoded, WellFormed;
    var all := chunks + [chunk];
    assert all[..|chunks|] == chunks && all[|chunks|] == chunk;
    HuntKeepsNewest(p, chunks);
    var s := FedAll(p, chunks).0;
    HeaderStarts(p, s, chunk);
    assert [] + Fed(p, s, chunk).1 == Fed(p, s, chunk).1;
  }

  lemma HeaderStarts(p: Parts, s: Now, samples: Audio)
    requires p.Good() && WellFormed(p, s) && s.spec.None? && s.audio + samples != []
    requires var vis := p.detectVis(s.audio + samples); vis.Some? && p.modeFromVis(vis.value.code).Some?
    ensures var (r, events) := Fed(p, s, samples);
      var spec := p.modeFromVis(p.detectVis(s.audio + samples).value.code);
      && events != [] && events[0] == ImageStarted(spec.value.mode)
      && ((forall m :: ImageComplete(m) !in events) ==> r.spec == spec && r.audio == s.audio + samples)
  {
    hide Streamed, Redecoded;
    var a := s.audio + samples;
    var t := s.(audio := a);
    assert samples == [] ==> t == s;
    assert Fed(p, s, samples) == Hunted(p, t);
    if forall m :: ImageComplete(m) !in Fed(p, s, samples).1 {
      LockKeepsAll(p, s, samples);
    }
  }

  /** A header with an unknown code reports nothing and leaves the audio from a fifth of a
      second before its end on. */
  lemma FalseHeader(p: Parts, s: Now, samples: Audio)
    requires p.Good() && WellFormed(p, s) && s.spec.None? && s.audio + samples != []
    requires var vis := p.detectVis(s.audio + samples); vis.Some? && p.modeFromVis(vis.value.code).None?
    ensures var a, (r, events) := s.audio + samples, Fed(p, s, samples);
      var kept := p.detectVis(a).value.end as real - 0.2 * p.fs as real;
      && events == [] && r.spec.None? && IsSuffix(r.audio, a)
      && (|a| as real >= kept >= 0.0 ==> kept <= (|a| - |r.audio|) as real < kept + 1.0)
      && (kept <= 0.0 ==> r.audio == a)
  {
    FedIsHunted(p, s, samples);
    var a := s.audio + samples;
    assert 0.2 * p.fs as real >= 0.0;
  }

  // ---- what the backends decode is reported ----

  /** The highest row count seen. */
  lemma {:induction false} MaxRowIs(rows: seq<nat>, maxRow: nat)
    ensures MaxRow(rows, maxRow) >= maxRow && forall i :: 0 <= i < |rows| ==> MaxRow(rows, maxRow) > rows[i]
    ensures MaxRow(rows, maxRow) == maxRow || exists i :: 0 <= i < |rows| && MaxRow(rows, maxRow) == rows[i] + 1
  {
    if rows != [] {
      MaxRowIs(rows[1..], Max(rows[0] + 1, maxRow));
      assert forall i :: 1 <= i < |rows| ==> rows[1..][i - 1] == rows[i];
      if i :| 0 <= i < |rows[1..]| && MaxRow(rows, maxRow) == rows[1..][i] + 1 {
        assert rows[i + 1] == rows[1..][i];
      }
    }
  }

  /** Main result. Every row the live backend decodes is reported in that feed, and so is the
      completion; a cancel or no new audio changes nothing but the look. */
  lemma RowsAreReported(p: Parts, s: Now, samples: Audio)
    requires p.Good() && WellFormed(p, s) && s.spec.Some? && p.incrementalDecode && s.audio + samples != []
    ensures var (r, events) := Fed(p, s, samples);
      var chunks := s.incremental.value + [samples];
      var response := p.backend(s.spec.value, s.visEnd, chunks);
      if p.cancelSeen(s.looks) || samples == [] then
        events == [] && Seen(p, r) == Seen(p, s) && r.incremental == s.incremental
      else if response.complete then ImageComplete(s.spec.value.mode) in events
      else
        && r.spec == s.spec && r.incremental == Some(chunks) && r.maxRow >= s.maxRow
        && (forall i :: 0 <= i < |response.rows| ==> r.maxRow > response.rows[i])
        && (r.maxRow == s.maxRow || exists i :: 0 <= i < |response.rows| && r.maxRow == response.rows[i] + 1)
  {
    hide Completed, Progress, Cap, MaxRow;
    CapIsPositive(p, s.spec.value);
    if samples != [] {
      MaxRowIs(p.backend(s.spec.value, s.visEnd, s.incremental.value + [samples]).rows, s.maxRow);
      CompletionIsReported(p, Capped(p, s.(audio := s.audio + samples)), samples);
    }
  }

  lemma CompletionIsReported(p: Parts, s: Now, samples: Audio)
    requires p.Good() && WellFormed(p, s) && s.incremental.Some?
    ensures samples != [] && !p.cancelSeen(s.looks)
      && p.backend(s.spec.value, s.visEnd, s.incremental.value + [samples]).complete
      ==> ImageComplete(s.spec.value.mode) in Streamed(p, s, samples).1
  {
    hide Completed, Progress, MaxRow;
    var response := p.backend(s.spec.value, s.visEnd, s.incremental.value + [samples]);
    var u := s.(looks := s.looks + 1, incremental := Some(s.incremental.value + [samples]),
                maxRow := MaxRow(response.rows, s.maxRow));
    CompletionFirst(p, u.(lastComplete := if s.trimmed then None else Some(s.audio)));
  }

  lemma CompletionFirst(p: Parts, s: Now)
    requires p.Good() && s.spec.Some?
    ensures Completed(p, s).1 != [] && Completed(p, s).1[0] == ImageComplete(s.spec.value.mode)
  {
    hide Fed;
  }

  /** The same for the batch decoder: growth is reported, and completion when all lines are there. */
  lemma LinesAreReported(p: Parts, s: Now, samples: Audio)
    requires p.Good() && WellFormed(p, s) && s.spec.Some? && !p.incrementalDecode && s.audio + samples != []
    ensures var (r, events) := Fed(p, s, samples);
      var spec, lines := s.spec.value, p.partialDecode(s.spec.value, s.visEnd, s.audio + samples);
      if p.cancelSeen(s.looks) || lines.None? || lines.value <= s.lastLines then
        events == [] && Seen(p, r) == Seen(p, s)
      else if lines.value >= spec.height then ImageComplete(spec.mode) in events
      else events == [ImageProgress(spec.mode, lines.value, spec.height)] && Seen(p, r) == Image(spec.mode, lines.value)
  {
    hide Completed;
    assert samples == [] ==> s.audio + samples == s.audio;
    var lines := p.partialDecode(s.spec.value, s.visEnd, s.audio + samples);
    if lines.Some? {
      var a := s.audio + samples;
      CompletionFirst(p, s.(audio := a, looks := s.looks + 1, lastLines := lines.value, lastComplete := Some(a)));
    }
  }

  // ---- the audio behind an image ----

  /** An idle decoder that has looked for a cancel this often finds a known header in a and
      decodes its image to the end at once. */
  predicate CompletesAtOnce(p: Parts, looks: nat, a: Audio) {
    && p.detectVis(a).Some? && p.modeFromVis(p.detectVis(a).value.code).Some? && !p.cancelSeen(looks)
    && var vis := p.detectVis(a).value;
    var spec, cut := p.modeFromVis(vis.code).value, Min(vis.end, |a|);
    if p.incrementalDecode then
      cut < |a| && p.backend(spec, vis.end, (if cut > 0 then [a[..cut]] else []) + [a[cut..]]).complete
    else
      p.partialDecode(spec, vis.end, a).Some? && p.partialDecode(spec, vis.end, a).value >= Max(1, spec.height)
  }

  /** Where the audio behind that image begins. */
  function TailStart(p: Parts, a: Audio): int
    requires p.detectVis(a).Some? && p.modeFromVis(p.detectVis(a).value.code).Some?
  {
    EndEstimate(p, p.modeFromVis(p.detectVis(a).value.code).value, p.detectVis(a).value.end)
  }

  /** An image that is wholly in the audio completes in the feed that finds it, and the audio
      behind it is fed to a fresh decoder. */
  lemma WholeImage(p: Parts, s: Now, samples: Audio) returns (shown: seq<Event>, idle: Now)
    requires p.Good() && WellFormed(p, s) && s.spec.None? && s.audio + samples != []
    requires CompletesAtOnce(p, s.looks, s.audio + samples)
    ensures var a := s.audio + samples;
      var mode := p.modeFromVis(p.detectVis(a).value.code).value.mode;
      var whole := [ImageStarted(mode)] + shown + [ImageComplete(mode)];
      && idle.(lastComplete := None) == INIT.(looks := s.looks + 1)
      && AllProgress(shown)
      && Fed(p, s, samples).1
           == whole + if TailStart(p, a) < |a| then Fed(p, idle, a[TailStart(p, a)..]).1 else []
  {
    hide Fed, Progress, Streamed, Redecoded, Completed, EndEstimate;
    var a := s.audio + samples;
    FedIsHunted(p, s, samples);
    var vis := p.detectVis(a).value;
    var spec, cut := p.modeFromVis(vis.code).value, Min(vis.end, |a|);
    var t := s.(audio := a, spec := Some(spec), visEnd := vis.end, lastLines := 0);
    idle := INIT.(lastComplete := Some(a), looks := s.looks + 1);
    shown := [];
    var more := if TailStart(p, a) < |a| then Fed(p, idle, a[TailStart(p, a)..]).1 else [];
    var done := [ImageComplete(spec.mode)];
    if p.incrementalDecode {
      var first := if cut > 0 then [a[..cut]] else [];
      shown := StreamsToEnd(p, t.(incremental := Some(first)), a[cut..]);
    } else {
      RedecodesToEnd(p, t);
      assert [] + (done + more) == done + more;
    }
    Regroup([ImageStarted(spec.mode)], shown, done, more);
  }

  lemma Regroup<T>(a: seq<T>, b: seq<T>, c: seq<T>, d: seq<T>)
    ensures a + (b + (c + d)) == a + b + c + d
  {}

  /** What a completed image reports, and what the audio behind it does. */
  lemma CompletedReports(p: Parts, s: Now)
    requires p.Good() && s.spec.Some? && !s.trimmed
    ensures var end := EndEstimate(p, s.spec.value, s.visEnd);
      var idle := INIT.(lastComplete := s.lastComplete, looks := s.looks);
      Completed(p, s).1
        == [ImageComplete(s.spec.value.mode)] + if end < |s.audio| then Fed(p, idle, s.audio[end..]).1 else []
  {
    hide Fed, EndEstimate;
  }

  lemma StreamsToEnd(p: Parts, s: Now, newAudio: Audio) returns (shown: seq<Event>)
    requires p.Good() && WellFormed(p, s) && s.incremental.Some? && !s.trimmed && s.maxRow == 0
    requires !p.cancelSeen(s.looks) && |newAudio| > 0
    requires p.backend(s.spec.value, s.visEnd, s.incremental.value + [newAudio]).complete
    ensures AllProgress(shown)
    ensures var end := EndEstimate(p, s.spec.value, s.visEnd);
      var idle := INIT.(lastComplete := Some(s.audio), looks := s.looks + 1);
      Streamed(p, s, newAudio).1
        == shown + ([ImageComplete(s.spec.value.mode)] + if end < |s.audio| then Fed(p, idle, s.audio[end..]).1 else [])
  {
    hide Fed, Completed, EndEstimate, Progress;
    var chunks := s.incremental.value + [newAudio];
    var response := p.backend(s.spec.value, s.visEnd, chunks);
    shown := Progress(response.rows, 0, s.spec.value.mode, s.spec.value.imageHeight);
    ProgressOnly(response.rows, 0, s.spec.value.mode, s.spec.value.imageHeight);
    CompletedReports(p, s.(looks := s.looks + 1, incremental := Some(chunks), maxRow := MaxRow(response.rows, 0),
                           lastComplete := Some(s.audio)));
  }

  lemma RedecodesToEnd(p: Parts, s: Now)
    requires p.Good() && WellFormed(p, s) && s.spec.Some? && !p.incrementalDecode && !s.trimmed && s.lastLines == 0
    requires !p.cancelSeen(s.looks)
    requires var lines := p.partialDecode(s.spec.value, s.visEnd, s.audio);
      lines.Some? && lines.value >= Max(1, s.spec.value.height)
    ensures var end := EndEstimate(p, s.spec.value, s.visEnd);
      var idle := INIT.(lastComplete := Some(s.audio), looks := s.looks + 1);
      Redecoded(p, s).1
        == [ImageComplete(s.spec.value.mode)] + if end < |s.audio| then Fed(p, idle, s.audio[end..]).1 else []
  {
    hide Fed, Completed, EndEstimate;
    var lines := p.partialDecode(s.spec.value, s.visEnd, s.audio).value;
    CompletedReports(p, s.(looks := s.looks + 1, lastLines := lines, lastComplete := Some(s.audio)));
  }

  lemma FedIsHunted(p: Parts, s: Now, samples: Audio)
    requires p.Good() && WellFormed(p, s) && s.spec.None? && s.audio + samples != []
    ensures Fed(p, s, samples) == Hunted(p, s.(audio := s.audio + samples))
  {
    hide Hunted;
    assert samples == [] ==> s.(audio := s.audio + samples) == s;
  }

  predicate AllProgress(events: seq<Event>) {
    forall i :: 0 <= i < |events| ==> events[i].ImageProgress?
  }

  lemma ProgressCons(e: Event, events: seq<Event>)
    requires e.ImageProgress? && AllProgress(events)
    ensures AllProgress([e] + events)
  {}

  lemma {:induction false} ProgressOnly(rows: seq<nat>, maxRow: nat, mode: int, height: nat)
    ensures AllProgress(Progress(rows, maxRow, mode, height))
  {
    hide AllProgress;
    if rows == [] {
      NoneProgress();
    } else if rows[0] + 1 <= maxRow {
      ProgressOnly(rows[1..], maxRow, mode, height);
    } else {
      ProgressOnly(rows[1..], rows[0] + 1, mode, height);
      ProgressCons(ImageProgress(mode, Min(rows[0] + 1, height), height),
          Progress(rows[1..], rows[0] + 1, mode, height));
    }
  }

  lemma NoneProgress()
    ensures AllProgress([])
  {}

  /** Main result. Two whole images in one chunk give two completions. */
  lemma TwoImages(p: Parts, s: Now, samples: Audio)
    requires p.Good() && WellFormed(p, s) && s.spec.None? && s.audio + samples != []
    requires var a := s.audio + samples;
      && CompletesAtOnce(p, s.looks, a) && TailStart(p, a) < |a|
      && CompletesAtOnce(p, s.looks + 1, a[TailStart(p, a)..])
    ensures var a, events := s.audio + samples, Fed(p, s, samples).1;
      var first := p.modeFromVis(p.detectVis(a).value.code).value.mode;
      var second := p.modeFromVis(p.detectVis(a[TailStart(p, a)..]).value.code).value.mode;
      exists i, j :: 0 <= i < j < |events| && events[i] == ImageComplete(first) && events[j] == ImageComplete(second)
  {
    hide Fed, CompletesAtOnce;
    var a := s.audio + samples;
    KnownHeader(p, s.looks, a);
    var tail := a[TailStart(p, a)..];
    KnownHeader(p, s.looks + 1, tail);
    var shown, idle := WholeImage(p, s, samples);
    assert [] + tail == tail;
    var shown', idle' := WholeImage(p, idle, tail);
    var events := Fed(p, s, samples).1;
    assert events[|shown| + 1].ImageComplete?;
    assert events[|shown| + 2 + |shown'| + 1].ImageComplete?;
  }

  lemma KnownHeader(p: Parts, looks: nat, a: Audio)
    requires CompletesAtOnce(p, looks, a)
    ensures p.detectVis(a).Some? && p.modeFromVis(p.detectVis(a).value.code).Some?
  {}

  /** For a sender whose clock is at most half a percent off, the audio fed again begins
      inside the finished image, and at most one percent of it and a tenth of a second
      before its end. */
  lemma EndIsNearImageEnd(p: Parts, spec: Spec, visEnd: nat, rate: real)
    requires p.Good() && 0.995 <= rate <= 1.005
    ensures var body := spec.duration * p.fs as real;
      var end := EndEstimate(p, spec, visEnd);
      && visEnd <= end
      && end as real <= visEnd as real + body * rate - 0.1 * p.fs as real
      && visEnd as real + body * rate - end as real <= 0.01 * body + 0.1 * p.fs as real + 1.0
  {
    var body := spec.duration * p.fs as real;
    LongBody(spec.duration, p.fs as real);
    var actual := Rates(body, rate);
    Bracket(visEnd, p.fs as real, body, actual);
  }

  lemma Bracket(visEnd: nat, fs: real, body: real, actual: real)
    requires fs >= 1.0 && body >= 2.0 * fs && 0.995 * body <= actual <= 1.005 * body
    ensures var end := Trunc(visEnd as real + body * 0.995 - 0.1 * fs);
      && visEnd <= end && end as real <= visEnd as real + actual - 0.1 * fs
      && visEnd as real + actual - end as real <= 0.01 * body + 0.1 * fs + 1.0
  {}

  lemma LongBody(duration: real, fs: real)
    requires duration >= 2.0 && fs >= 1.0
    ensures duration * fs >= 2.0 * fs
  {}

  lemma Rates(body: real, rate: real) returns (actual: real)
    requires body >= 0.0 && 0.995 <= rate <= 1.005
    ensures actual == body * rate && 0.995 * body <= actual <= 1.005 * body
  {
    actual := body * rate;
    assert (rate - 0.995) * body >= 0.0 && (1.005 - rate) * body >= 0.0;
  }

  /** The exception: the feed that finds a known header, and does not complete the image
      at once, keeps everything, however much it was. */
  lemma LockKeepsAll(p: Parts, s: Now, samples: Audio)
    requires p.Good() && WellFormed(p, s) && s.spec.None? && |s.audio + samples| > 0
    requires var vis := p.detectVis(s.audio + samples); vis.Some? && p.modeFromVis(vis.value.code).Some?
    requires forall m :: ImageComplete(m) !in Fed(p, s, samples).1
    ensures var r := Fed(p, s, samples).0;
      r.spec == p.modeFromVis(p.detectVis(s.audio + samples).value.code) && r.audio == s.audio + samples
  {
    hide Completed, Progress;
    var t := s.(audio := s.audio + samples);
    assert samples == [] ==> t == s;
    var vis := p.detectVis(t.audio).value;
    var spec := p.modeFromVis(vis.code).value;
    var u := t.(spec := Some(spec), visEnd := vis.end, lastLines := 0);
    assert Fed(p, s, samples) == Hunted(p, t);
    if p.incrementalDecode {
      var cut := Min(vis.end, |t.audio|);
      StreamKeepsAll(p, u.(incremental := Some(if cut > 0 then [t.audio[..cut]] else [])), t.audio[cut..]);
    } else {
      RedecodeKeepsAll(p, u);
    }
  }

  lemma StreamKeepsAll(p: Parts, s: Now, newAudio: Audio)
    requires p.Good() && WellFormed(p, s) && s.incremental.Some?
    ensures var (r, events) := Streamed(p, s, newAudio);
      (r.spec == s.spec && r.audio == s.audio) || ImageComplete(s.spec.value.mode) in events
  {
    hide Fed, Progress;
  }

  lemma RedecodeKeepsAll(p: Parts, s: Now)
    requires p.Good() && WellFormed(p, s) && s.spec.Some? && !p.incrementalDecode
    ensures var (r, events) := Redecoded(p, s);
      (r.spec == s.spec && r.audio == s.audio) || ImageComplete(s.spec.value.mode) in events
  {
    hide Fed;
  }

  /** Main result. Over any sequence of feeds of at most m samples, with no mode's cap
      above the given one: never more is retained than that cap, or the rolling window
      and one chunk. */
  lemma {:induction false} MemoryIsBounded(p: Parts, chunks: seq<Audio>, m: nat, cap: nat)
    requires p.Good() && p.incrementalDecode && LateFalseHeaders(p)
    requires forall i :: 0 <= i < |chunks| ==> |chunks[i]| <= m
    requires forall code :: p.modeFromVis(code).Some? ==> Cap(p, p.modeFromVis(code).value) <= cap
    ensures var s := FedAll(p, chunks).0;
      && |s.audio| <= Max(cap, IDLE_WINDOW_S * p.fs + m)
      && (s.spec.None? ==> |s.audio| <= IDLE_WINDOW_S * p.fs)
  {
    hide Fed, Cap, LateFalseHeaders;
    if chunks != [] {
      var last := |chunks| - 1;
      var before := FedAll(p, chunks[..last]).0;
      assert forall i :: 0 <= i < last ==> chunks[..last][i] == chunks[i];
      MemoryIsBounded(p, chunks[..last], m, cap);
      RunIsTidy(p, chunks[..last]);
      FeedIsTidy(p, before, chunks[last]);
    }
  }

  // ---- the object ----

  datatype State = Idle | Decoding

  class Decoder {
    const parts: Parts

    var buffer: seq<Audio>
    var buffered: nat
    var state: State
    var spec: Option<Spec>
    var visEnd: nat
    var lastLines: nat
    var incremental: Option<seq<Audio>>
    var incrementalMaxRow: nat
    var trimmed: bool
    var lastComplete: Option<Audio>
    /** Looks at the cancel event so far. */
    var looks: nat

    ghost function View(): Now
      reads this
    {
      Now(Flatten(buffer), spec, visEnd, lastLines, incremental, incrementalMaxRow, trimmed, lastComplete, looks)
    }

    /** The sample count is that of the chunks, and the state goes with the mode. */
    ghost predicate Valid()
      reads this
    {
      && parts.Good() && WellFormed(parts, View())
      && buffered == |Flatten(buffer)|
      && (state == Decoding <==> spec.Some?)
    }

    constructor (p: Parts)
      requires p.Good()
      ensures Valid() && parts == p && View() == INIT
    {
      parts := p;
      buffer, buffered, state, spec, visEnd, lastLines := [], 0, Idle, None, 0, 0;
      incremental, incrementalMaxRow, trimmed, lastComplete, looks := None, 0, false, None, 0;
    }

    method SetBuffer(a: Audio)
      modifies `buffer, `buffered
      ensures Flatten(buffer) == a && buffered == |a|
    {
      buffer := [a];
      buffered := |a|;
      FlattenOne(a);
    }

    /** `_joined`: the audio as one array; the chunk list collapses. */
    method Joined() returns (a: Audio)
      modifies `buffer
      ensures a == old(Flatten(buffer)) == Flatten(buffer)
    {
      a := Flatten(buffer);
      if |buffer| > 1 {
        buffer := [a];
        FlattenOne(a);
      }
    }

    method EnforceBufferCap()
      requires Valid()
      modifies `buffer, `buffered, `trimmed
      ensures Valid() && View() == Capped(parts, old(View()))
    {
      hide Cap, Flatten;
      if state != Decoding || !parts.incrementalDecode || incremental.None? {
        return;
      }
      var cap := Cap(parts, spec.value);
      if buffered <= cap {
        return;
      }
      var a := Joined();
      SetBuffer(a[buffered - cap..]);
      trimmed := true;
    }

    method ResetAll()
      requires Valid()
      modifies this
      ensures Valid() && View() == Reset(old(View()))
    {
      buffer, buffered, state, spec, visEnd, lastLines := [], 0, Idle, None, 0, 0;
      incremental, incrementalMaxRow, trimmed := None, 0, false;
    }

    /** `_is_cancelled`. */
    method IsCancelled() returns (cancelled: bool)
      modifies `looks
      ensures cancelled == parts.cancelSeen(old(looks)) && looks == old(looks) + 1
    {
      cancelled := parts.cancelSeen(looks);
      looks := looks + 1;
    }

    method Feed(samples: Audio) returns (events: seq<Event>)
      requires Valid()
      modifies this
      ensures Valid() && (View(), events) == Fed(parts, old(View()), samples)
      decreases buffered + |samples|, 4
    {
      hide Hunted, Streamed, Redecoded, Capped, Flatten;
      FeedFollows(parts, View(), samples);
      if |samples| > 0 {
        FlattenSnoc(buffer, samples);
        buffer := buffer + [samples];
        buffered := buffered + |samples|;
        EnforceBufferCap();
      }
      if buffered == 0 {
        return [];
      }
      if state == Idle {
        events := FeedIdle();
      } else if parts.incrementalDecode && incremental.Some? {
        events := FeedIncremental(samples);
      } else {
        events := DecodeProgress();
      }
    }

    method FeedIdle() returns (events: seq<Event>)
      requires Valid() && state == Idle
      modifies this
      ensures Valid() && (View(), events) == Hunted(parts, old(View()))
      decreases buffered, 3
    {
      hide Streamed, Redecoded, Flatten;
      var joined := Joined();
      var vis := parts.detectVis(joined);
      if vis.None? {
        var maxSamples := IDLE_WINDOW_S * parts.fs;
        if |joined| > maxSamples {
          SetBuffer(joined[|joined| - maxSamples..]);
        } else {
          assert joined[0..] == joined;
        }
        return [];
      }
      var found := parts.modeFromVis(vis.value.code);
      if found.None? {
        var preamble := Trunc(0.2 * parts.fs as real);
        var keepStart := Max(0, vis.value.end - preamble);
        SetBuffer(joined[Min(keepStart, |joined|)..]);
        return [];
      }
      state := Decoding;
      spec := found;
      visEnd := vis.value.end;
      lastLines := 0;
      events := [ImageStarted(found.value.mode)];
      var more;
      if parts.incrementalDecode {
        var cut := Min(visEnd, |joined|);
        incremental := Some([]);
        if cut > 0 {
          incremental := Some([joined[..cut]]);
        }
        more := FeedIncremental(joined[cut..]);
      } else {
        more := DecodeProgress();
      }
      events := events + more;
    }

    /** The loop over the backend's rows: only rows that advance are reported. */
    method ReportRows(rows: seq<nat>) returns (events: seq<Event>, maxRow: nat)
      requires spec.Some?
      ensures events == Progress(rows, incrementalMaxRow, spec.value.mode, spec.value.imageHeight)
      ensures maxRow == MaxRow(rows, incrementalMaxRow)
    {
      var height := spec.value.imageHeight;
      events := [];
      maxRow := incrementalMaxRow;
      assert rows[0..] == rows;
      for i := 0 to |rows|
        invariant events + Progress(rows[i..], maxRow, spec.value.mode, height)
          == Progress(rows, incrementalMaxRow, spec.value.mode, height)
        invariant MaxRow(rows[i..], maxRow) == MaxRow(rows, incrementalMaxRow)
      {
        assert rows[i..][1..] == rows[i + 1..];
        if rows[i] + 1 > maxRow {
          maxRow := rows[i] + 1;
          events := events + [ImageProgress(spec.value.mode, Min(maxRow, height), height)];
        }
      }
      assert rows[|rows|..] == [];
    }

    method FeedIncremental(newAudio: Audio) returns (events: seq<Event>)
      requires Valid() && incremental.Some?
      modifies this
      ensures Valid() && (View(), events) == Streamed(parts, old(View()), newAudio)
      decreases buffered, 2
    {
      hide Completed, Flatten;
      ghost var s := View();
      var cancelled := IsCancelled();
      if cancelled || |newAudio| == 0 {
        return [];
      }
      incremental := Some(incremental.value + [newAudio]);
      var response := parts.backend(spec.value, visEnd, incremental.value);
      var maxRow;
      events, maxRow := ReportRows(response.rows);
      incrementalMaxRow := maxRow;
      assert View() == s.(looks := s.looks + 1, incremental := Some(s.incremental.value + [newAudio]),
                          maxRow := maxRow);
      if response.complete {
        if trimmed {
          lastComplete := None;
        } else {
          var a := Joined();
          lastComplete := Some(a);
        }
        var more := CompleteImage();
        events := events + more;
      }
    }

    method DecodeProgress() returns (events: seq<Event>)
      requires Valid() && state == Decoding && !parts.incrementalDecode
      modifies this
      ensures Valid() && (View(), events) == Redecoded(parts, old(View()))
      decreases buffered, 2
    {
      hide Completed, Flatten;
      var joined := Joined();
      var cancelled := IsCancelled();
      if cancelled {
        return [];
      }
      var lines := parts.partialDecode(spec.value, visEnd, joined);
      if lines.None? || lines.value <= lastLines {
        return [];
      }
      lastLines := lines.value;
      if lines.value >= spec.value.height {
        lastComplete := Some(joined);
        events := CompleteImage();
      } else {
        events := [ImageProgress(spec.value.mode, lines.value, spec.value.height)];
      }
    }

    method CompleteImage() returns (events: seq<Event>)
      requires Valid() && state == Decoding
      modifies this
      ensures Valid() && (View(), events) == Completed(parts, old(View()))
      decreases buffered, 1
    {
      hide Fed, Flatten, EndEstimate;
      var tail: Option<Audio> := None;
      events := [ImageComplete(spec.value.mode)];
      if !trimmed {
        var endEst := EndEstimate(parts, spec.value, visEnd);
        if 0 <= endEst < buffered {
          var a := Joined();
          tail := Some(a[endEst..]);
        }
      }
      ResetAll();
      if tail.Some? && |tail.value| > 0 {
        var more := Feed(tail.value);
        events := events + more;
      }
    }
  }
}
