# Verified models of Open-SSTV

Dafny models of the parts of Open-SSTV whose correctness spans many calls, with
proofs about all inputs, all runs or all interleavings. `dafny verify dfyconfig.toml`
checks everything.

**Line grid, slant fit and live decoding** (`core/sync.py`, `core/slant.py`,
`core/incremental_decoder.py`, `core/decoder.py`)

- `Rounding`: Python's half-to-even `round` and `int` on exact reals.
- `SyncGrid`: `select_anchor` and `walk_sync_grid` as loops and as a specification.
  `GridSafety`: line numbering never slips. `GridStability`: appending candidates and
  trimming the buffer, each with the exact condition.
- `LeastSquares`, `SlantFit`, `SlantExact`, `SlantOutliers`: the fit, that it is a fit, that
  it removes clock drift from the line starts exactly, and which stray candidates it throws
  away without moving a line.
- `PruneSafety`, `LineDecoder`, `SyncHarvest`: the streaming decoder as a class with a ghost stream of
  everything fed, over one feed and over any sequence of them. The signal hypotheses of
  `GridSafety` carry over to what `feed` keeps.
- `StreamDecoder`: header hunt, decoding, completion and re-feeding as functions and as a
  class; events follow a grammar, the retained audio is bounded and always the newest, and
  no header in it is missed, over every sequence of feeds.
- `Pixels`, `Tones`: pixel sampling, and tone timelines on the ideal frequency track.
  `Scottie`: the whole way of a picture from the encoder's tones to the decoded rows.
  `Majority`, `ScottieDrift`: the same with a sender's clock that runs at another rate:
  which pixels survive, exactly. `ScottieReception`: from received syncs over the grid or
  the slant fit to that picture.
- `Robot36`: live rows with chroma back-fill against the batch decoder. `Robot36Picture`:
  what the line-pair encoder and the decoder make of a picture together.

**Remote transmit** (`remote/control.py`)

- `RemotePlane`: one call as one step of a timed state machine. `RemoteControl`: the
  object whose methods do exactly these steps. `RemoteSafety`: who may key, the
  dead-man's-switch and the cooldown over every run. `RemoteActs`: what every call does when
  it does something, so that a stop stops and a handshake keys. `RemoteDispatch`: any number of
  threads queueing and draining under two locks; every interleaving acts like its calls
  one after another, so the results about runs hold for interleavings.

**Logbook** (`logbook/adif.py`, `logbook/coordinator.py`)

- `Text`, `Utf8`: Python's string functions and UTF-8 with replacement on decode.
- `AdifModes`, `AdifValues`, `AdifCodec`, `AdifLoops`, `AdifRoundTrip`: the ADIF writer
  and reader as functions on bytes, their loops, and the round trip. The normal form of
  a contact is `AdifRoundTrip.Normal`: text stripped, callsign upper-cased, time to the
  second, direction kept, frequency kept inside (0, 300 GHz), band derived or kept when
  it is a known band, mode settled. `AdifReader`, `AdifFields`: logs that other programs
  wrote, in any spelling of their tags, dates and frequencies. `AdifVersion`: what happens to the round trip when the program
  version holds an end-of-header marker.
- `LogImport`: import with duplicate removal, and importing our own export.

**Rig links** (`radio/rigctld.py`, `radio/serial_rig.py`)

- `Rigctld`, `RigctldClient`: one command and its reply under timeouts, resets, late
  replies, reconnects and any chunking. `RigctldActs`: when a command does get its answer.
  `CivFrames`: Icom frames and BCD frequencies.

**Playback** (`audio/output_stream.py`)

- `Playback`: the lock protocol between transmissions, the PortAudio reset and stop, and
  what the audio callback writes.

`Prelude` holds what several modules share. Methods follow the source's loops and state
changes and are proved against a specification function; the theorems are about those
functions. Where two modules name the same thing, the qualified name is used.

## Where the code falls short of what is said about it

- `logbook/coordinator.py:93-97` says that a re-import of our own export must never
  duplicate rows. It can: a row imported without a mode comes back with mode SSTV
  (`LogImport.ReimportOfNoMode`), and one whose compact mode begins or ends with white space
  other than a blank comes back without it (`AdifModes.TabbedModeLosesKey`). For every log
  `LogImport.ReimportAddsNothingIff` says exactly when no row is added.
- `core/slant.py:15-19` calls taking the fitted slope as the line period equivalent to
  resampling, and `core/slant.py:47-51` gives 0.4 % as the drift it works for. Only the line
  starts are corrected; offsets and pixels within a line stay nominal, and half a pixel of
  drift over the reach of a line loses pixels (`ScottieReception.SlantCorrectedPictureIsExact`).
  For Scottie S1 at 48 kHz that is between 0.05 % and 0.1 % (`ScottieDrift.ScottieS1Drift`,
  `ScottieReception.ScottieS1LosesPixels`).
- `core/incremental_decoder.py:524-531` says that pruned audio can never be needed again.
  With the grid used up the prediction comes from the last candidate, and it is safe if and
  only if that candidate is no noise (`PruneSafety.PredictionSafeIff`; such signals exist,
  `PruneSafety.NoiseHalfway`). With lines of more than four times the filter padding the next
  line then loses pixels (`LineDecoder.IncrementalDecoder.NoiseCutsPixels`), with lines of
  less than about four thirds of it the padding absorbs all of the overshoot
  (`LineDecoder.IncrementalDecoder.NoiseAbsorbed`), and in between it depends on where the
  noise lies, by up to three quarters of a line (`PruneSafety.PredictionOvershoot`).
- `core/decoder.py:822-857` bounds the audio retained while decoding. The bound holds after
  every later feed (`StreamDecoder.RetainedIsBounded`), but the feed that finds the header
  keeps its whole chunk, however long (`StreamDecoder.LockKeepsAll`).
- `core/decoder.py:660-663` says that already confirmed lines keep their place whatever
  candidates arrive later. They do if and only if the anchor came from the
  gap-and-lattice rule (`GridStability.StableIffRuleAnchor`, `GridStability.LoneCandidateMoves`).
- A shift of the buffer by an odd number of samples moves a predicted position by one when
  it lies on a half sample (`GridStability.GridShift`, `GridStability.HalfSampleMovesTwice`),
  because ties go to even.
- `radio/rigctld.py:225-227` says that a failure that may leave a reply partly read closes
  the socket. An unreadable reply in the second attempt does not
  (`Rigctld.BadReplyClosesFirstOnly`), and the next command can then be answered by what is
  left (`Rigctld.StaleReplyAccepted`).
- `logbook/adif.py:629-632` cuts at the first end-of-header marker anywhere in the file. A program
  version that contains one can lose the whole log (`AdifRoundTrip.MarkedVersionLosesAll`);
  without one the round trip holds for every field content. With one it depends on how the
  version goes on behind its marker: `AdifVersion.MarkerSeen`, `AdifVersion.MarkerSwallowed` and
  `AdifVersion.RecordSwallowed` say exactly how.
- `core/robot36_dsp.py:160-177` calls the colour matrix equivalent to BT.601. Neutral chroma
  gives green one step below grey (`Robot36.NeutralChroma`); over all bytes the two differ by at
  most four steps (`Robot36.NearBt601`).
- `audio/output_stream.py:544-546` clears the published stream whoever published it, so with
  two transmissions `stop` can miss the earlier one (`Playback.StopCanMissAnEarlierStream`).
  It finds a published stream if and only if nobody published or cleared since
  (`Playback.StopFindsIff`), so always when playbacks do not overlap
  (`Playback.StopFindsTheOnlyStream`).

## Model

| member | source | states |
|---|---|---|
| `Rounding.Round` | src/open_sstv/core/sync.py:388-388 | the integer nearest to x, and on a tie the even one, as Python's `round` |
| `Rounding.RoundShift` | src/open_sstv/core/sync.py:446-446 | rounding commutes with an integer shift if and only if the shift is even or x is no tie |
| `SyncGrid.SelectAnchor` | src/open_sstv/core/sync.py:348-406 | the four searches run as loops give exactly the declarative choice: the first candidate passing the gap-and-lattice rule, else the first on the lattice, else the first good gap at slot 0, else candidate 0 |
| `SyncGrid.GapIsWhole` | src/open_sstv/core/sync.py:380-383 | for a tolerance below half a period a gap is good exactly when one to four whole periods fit it |
| `SyncGrid.SlotIsLine` | src/open_sstv/core/sync.py:385-391 | and a candidate's slot is k exactly when it lies on the k-th line behind the hint |
| `SyncGrid.NoHintAnchor` | src/open_sstv/core/sync.py:361-376 | without a hint the anchor is the first well-spaced candidate, or candidate 0 if there is none, as line 0 |
| `SyncGrid.UnfitHintIsIgnored` | src/open_sstv/core/sync.py:369-376 | a hint whose lattice no candidate is on gives the anchor of no hint |
| `SyncGrid.WalkSyncGrid` | src/open_sstv/core/sync.py:409-472 | the list built by the nested loops is the grid given by recursion over candidates, for all inputs |
| `SyncGrid.GridLength` | src/open_sstv/core/sync.py:433-439 | never more than `max_lines` positions, and none exactly for no candidates, no lines or a non-positive period |
| `GridSafety.AnchorOnLine` | src/open_sstv/core/sync.py:385-406 | under the signal hypotheses the anchor is a received sync and its slot is that sync's own line |
| `GridSafety.NumberingNeverSlips` | src/open_sstv/core/sync.py:409-472 | whatever lines are missed or invented, grid entry k stays within e + max(1, m)/2 of the true line k, and from the anchor on a received line is placed on its own sync |
| `GridStability.GapsBounded` | src/open_sstv/core/sync.py:453-471 | for sorted candidates and P >= 4 neighbouring grid positions are 3P/4 to 5P/4 apart |
| `GridStability.AppendExtends` | src/open_sstv/core/decoder.py:660-666 | when the gap-and-lattice rule chose the anchor, later candidates only extend the grid |
| `GridStability.StableIffRuleAnchor` | src/open_sstv/core/decoder.py:660-666 | the grid is stable under all later audio if and only if that rule fired: in every other case some later pair of candidates changes it |
| `GridStability.LoneCandidateMoves` | src/open_sstv/core/decoder.py:660-666 | a concrete case: a lone candidate on line 0, and a later pair that moves line 0 by ten samples |
| `GridStability.GridShift` | src/open_sstv/core/incremental_decoder.py:482-490 | pruning k samples moves the grid by k if and only if k is even or no predicted position lies on a half sample |
| `GridStability.HalfSampleMovesTwice` | src/open_sstv/core/incremental_decoder.py:482-490 | a concrete case: a period of 100.5 samples with line 1 missed, where a trim by one sample moves line 1 by two |
| `LeastSquares.FitMinimises` | src/open_sstv/core/slant.py:176-193 | the closed form has the least sum of squared residuals of all lines |
| `SlantFit.AssignSlots` | src/open_sstv/core/slant.py:154-170 | the loop over candidates yields the slot points: nearest slot, first candidate of a slot, inside the image |
| `SlantFit.FitLineTiming` | src/open_sstv/core/slant.py:88-193 | fit, rejection of outliers and refit as the source orders them; None exactly when under-determined |
| `SlantFit.FitIsLeastSquares` | src/open_sstv/core/slant.py:154-193 | each slot of the image is used at most once, in increasing order, with one of the candidates, and no line fits the kept points better |
| `SlantOutliers.OutliersDropped` | src/open_sstv/core/slant.py:176-193 | around the least-squares line of all slot points exactly the points within max(3 * 1.4826 * MAD, 0.005 p) stay if they are at least three, and all points otherwise; the returned line has the least squared residuals over those |
| `SlantOutliers.StraysDropped` | src/open_sstv/core/slant.py:180-191 | the refit finds the line most of the points lie on when every other point is farther from the first line than 0.5 % of a period and 4.45 times the range over which that line misses the exact points |
| `SlantFit.SlantCorrectedLineStarts` | src/open_sstv/core/slant.py:196-231 | projects the fit onto every line, or falls back to the plain grid |
| `SlantExact.DriftRemoved` | src/open_sstv/core/slant.py:132-231 | candidates exactly on a + i*s (s within tolerance of nominal) give round(a + i*s) for every line of the image |
| `SlantOutliers.PullBound` | src/open_sstv/core/slant.py:176-178 | how far the first line can be from any line g at a point, from the distances of the points to g alone |
| `SlantOutliers.StraysDoNotMoveLines` | src/open_sstv/core/slant.py:132-231 | candidates on a + i*s with strays more than 5 % of a period off every line, fewer than half of the points, and pulling the first line by at most 0.5 %, still give round(a + i*s) for every line of the image |
| `PruneSafety.PredictionSafe` | src/open_sstv/core/incremental_decoder.py:532-543 | the predicted next sync is at most the grid error plus one after the true one, if the grid still holds it or the last candidate is a received sync |
| `PruneSafety.PredictionSafeIff` | src/open_sstv/core/incremental_decoder.py:540-543 | for a used-up grid that bound holds if and only if the last candidate is no noise (period of at least 12 samples) |
| `PruneSafety.PredictionOvershoot` | src/open_sstv/core/incremental_decoder.py:537-543 | whatever the last candidate is, the prediction is less than three quarters of a period past the next line and its grid error |
| `PruneSafety.NoiseHalfway` | src/open_sstv/core/incremental_decoder.py:540-543 | admissible signals with a used-up grid and noise as the last candidate exist at every even period from 4 samples on |
| `PruneSafety.MovedAdmissible` | src/open_sstv/core/incremental_decoder.py:485-489 | the hypotheses on a signal do not depend on where the buffer starts |
| `LineDecoder.IncrementalDecoder.constructor` | src/open_sstv/core/incremental_decoder.py:208-242 | starts with an empty buffer at the given absolute position |
| `SyncHarvest.SameIsOnePulse` | src/open_sstv/core/incremental_decoder.py:391-395 | two sightings lie within the radius of each other exactly when they are of one pulse |
| `SyncHarvest.HarvestIsNewest` | src/open_sstv/core/incremental_decoder.py:385-415 | after any searches, however they overlap, the candidates are in order and hold every pulse that any of them saw exactly once, where the last search that saw it put it |
| `LineDecoder.IncrementalDecoder.LocatedInStream` | src/open_sstv/core/incremental_decoder.py:385-401 | a pulse found in the search window is placed at its own absolute position in the stream |
| `LineDecoder.IncrementalDecoder.HarvestMeans` | src/open_sstv/core/incremental_decoder.py:385-415 | after a search every pulse found is where the stream has it, and exactly the candidates not found again are kept; a tail too short for the filter is not searched |
| `LineDecoder.IncrementalDecoder.StallMeansOverdue` | src/open_sstv/core/incremental_decoder.py:512-519 | the stall trim acts exactly on a buffer of more than one and a half images, the look-back and the filter padding |
| `LineDecoder.IncrementalDecoder.SearchReachesBack` | src/open_sstv/core/incremental_decoder.py:362-384 | the search begins no later than one line before the end of the last one, with at most the filter padding in front |
| `LineDecoder.IncrementalDecoder.UpdateSyncs` | src/open_sstv/core/incremental_decoder.py:352-416 | a re-found pulse replaces its first sighting, new ones are added, the list stays sorted |
| `LineDecoder.IncrementalDecoder.TryDecodeNext` | src/open_sstv/core/incremental_decoder.py:418-480 | decodes the next grid position if and only if it is anchored, inside the buffer and complete; its window is the stream at that absolute place |
| `LineDecoder.IncrementalDecoder.Prune` | src/open_sstv/core/incremental_decoder.py:524-548 | drops exactly the samples before the predicted next window |
| `LineDecoder.IncrementalDecoder.EnforceStallCap` | src/open_sstv/core/incremental_decoder.py:492-522 | at most the stall cap remains, with the candidates that are still in it |
| `LineDecoder.IncrementalDecoder.NoiseCutsPixels` | src/open_sstv/core/incremental_decoder.py:524-548 | with noise as the last candidate and a quarter line longer than the filter padding, pruning cuts into the pixels of the next line, wherever within the grid error it is later placed |
| `LineDecoder.IncrementalDecoder.NoiseAbsorbed` | src/open_sstv/core/incremental_decoder.py:524-548 | with three quarters of a line inside the padding pruning never reaches a pixel of the next line, whatever the last candidate is |
| `LineDecoder.IncrementalDecoder.NotStalled` | src/open_sstv/core/incremental_decoder.py:418-480 | while the candidates track a transmission, a line whose grid place and audio are in the buffer is never what a decode waits for |
| `LineDecoder.IncrementalDecoder.AllInReach` | src/open_sstv/core/incremental_decoder.py:341-344 | so the decode loop reaches every line in reach |
| `LineDecoder.IncrementalDecoder.Feed` | src/open_sstv/core/incremental_decoder.py:316-348 | the buffer is the suffix of everything fed and within the cap; the candidates are those found so far with this feed's merged in; decoding goes on until all grid positions are decoded or the next one is missing, in front of the buffer, or short of audio; positions are decoded once each in order, each on its own scan line within the grid error, and, while the candidates track a transmission and nothing was stall-trimmed, no decoded line misses a pixel sample |
| `LineDecoder.IncrementalDecoder.FeedAll` | src/open_sstv/core/incremental_decoder.py:316-348 | the same over any sequence of feeds, and every line whose grid place and audio are in has been decoded: a whole image gives all of its lines |
| `StreamDecoder.ImageHasItsStart` | src/open_sstv/core/decoder.py:694-735 | in any accepted event history an open image began with its own start and then only advanced, with strictly more lines each time and never past the total |
| `StreamDecoder.FeedFollows` | src/open_sstv/core/decoder.py:892-1185 | the events of every feed continue the grammar (start progress* complete)* from what was seen before to what the new state stands for |
| `StreamDecoder.ImagesAreWhole` | src/open_sstv/core/decoder.py:892-923 | over any sequence of feeds a completed image has its start before it and only its own, strictly advancing progress in between |
| `StreamDecoder.EndEstimate` | src/open_sstv/core/decoder.py:1145-1149 | the audio fed again starts at least one sample in, so each tail is shorter and the recursion ends |
| `StreamDecoder.RetainedIsBounded` | src/open_sstv/core/decoder.py:822-857 | over any sequence of feeds: what a non-empty feed leaves is within the cap of the image it began in, and of one that began without an image at most what was there and the chunk |
| `StreamDecoder.LockKeepsAll` | src/open_sstv/core/decoder.py:892-1000 | the exception to the cap: the feed that finds a known header and does not complete the image keeps everything, however long |
| `StreamDecoder.RetainedIsNewest` | src/open_sstv/core/decoder.py:822-857 | over any sequence of feeds the retained audio is a suffix of everything fed, and while an image is decoded the backend has been given the same audio, of which the cap cuts at most the front |
| `StreamDecoder.CapKeepsNewest` | src/open_sstv/core/decoder.py:822-857 | while an image goes on exactly the newest samples up to the cap are kept |
| `StreamDecoder.HuntKeepsNewest` | src/open_sstv/core/decoder.py:925-936 | over any feeds without a header exactly the last three seconds are retained and nothing is reported |
| `StreamDecoder.HeaderIsFound` | src/open_sstv/core/decoder.py:925-1016 | a known header in the last three seconds and the new chunk starts its image in that very feed, with all of them to decode |
| `StreamDecoder.FalseHeader` | src/open_sstv/core/decoder.py:940-963 | a header with an unknown code reports nothing and leaves the audio from a fifth of a second before its end on |
| `StreamDecoder.RowsAreReported` | src/open_sstv/core/decoder.py:1033-1091 | every row the live backend decodes is reported in that feed, and so is the completion; a cancel or no new audio changes nothing but the look |
| `StreamDecoder.LinesAreReported` | src/open_sstv/core/decoder.py:1093-1131 | the batch path reports growth, and completion when all lines are there |
| `StreamDecoder.WholeImage` | src/open_sstv/core/decoder.py:1133-1171 | an image that is wholly in the audio completes in the feed that finds it, and the audio behind it is fed to a fresh decoder |
| `StreamDecoder.TwoImages` | src/open_sstv/core/decoder.py:1145-1171 | two whole images in one chunk give two completions |
| `StreamDecoder.EndIsNearImageEnd` | src/open_sstv/core/decoder.py:1145-1149 | with the sender's clock at most half a percent off, the tail begins inside the finished image, at most one percent of it and a tenth of a second before its end |
| `StreamDecoder.MemoryIsBounded` | src/open_sstv/core/decoder.py:822-923 | over any sequence of feeds of at most m samples the retained audio never exceeds the largest cap, or the rolling window and one chunk; without an image it is within the rolling window |
| `StreamDecoder.Decoder.Feed` | src/open_sstv/core/decoder.py:892-923 | the fields and the events after a feed are those of the specification, and the sample count is that of the chunks |
| `StreamDecoder.Decoder.FeedIdle` | src/open_sstv/core/decoder.py:925-1016 | a rolling window without a header, a preamble behind an unknown code, the start of an image behind a known one |
| `StreamDecoder.Decoder.ReportRows` | src/open_sstv/core/decoder.py:1047-1076 | re-emitted rows are not reported, every reported count is higher than the last |
| `StreamDecoder.Decoder.FeedIncremental` | src/open_sstv/core/decoder.py:1033-1091 | a cancel or no new audio reports nothing, completion re-feeds the tail |
| `StreamDecoder.Decoder.DecodeProgress` | src/open_sstv/core/decoder.py:1093-1131 | the batch path reports only growth, and completion when all lines are there |
| `StreamDecoder.Decoder.CompleteImage` | src/open_sstv/core/decoder.py:1133-1171 | the state is reset and the audio behind the image fed again, unless the cap has cut it |
| `StreamDecoder.Decoder.EnforceBufferCap` | src/open_sstv/core/decoder.py:822-857 | drops the oldest audio beyond the cap and remembers that it did |
| `Pixels.SamplePixels` | src/open_sstv/core/demod.py:110-192 | windows grouped by length give every column the value it would get on its own: median of the middle of its pixel, neutral outside the track or the guard |
| `Pixels.MedianGroups` | src/open_sstv/core/demod.py:172-177 | every valid window gets the median of its own samples |
| `Pixels.ChromaIsLumaBut` | src/open_sstv/core/demod.py:119-192 | chroma is read like luma, but neutral in the guard at the right edge, in the sync band and outside the track, where luma is black |
| `Pixels.ShadeScale` | src/open_sstv/core/demod.py:179-191 | black and below is 0, white and above is 255, and a higher frequency is never darker |
| `Pixels.WindowInside` | src/open_sstv/core/demod.py:152-164 | with five samples to a pixel and the sync at most half a sample off, a column's window lies inside its own dwell |
| `Scottie.DecodeScottieRgb` | src/open_sstv/core/decoder.py:346-404 | each pixel of each channel is the column sampled at its offset from that row's sync; a cancel gives nothing |
| `Scottie.OffsetsAgree` | src/open_sstv/core/decoder.py:371-387 | the decoder's channel offsets from the sync are the encoder's channel starts |
| `Scottie.ChannelInImage` | src/open_sstv/core/encoder.py:228-239 | where the tones of one channel of one line lie in the tone sequence of the picture |
| `Scottie.PixelSurvives` | src/open_sstv/core/decoder.py:371-404 | one pixel of one channel comes back as it was encoded |
| `Tones.FreqPast` | src/open_sstv/core/encoder.py:228-239 | on the ideal track, past the first tones the rest of the sequence sounds |
| `Tones.ScanFreq` | src/open_sstv/core/encoder.py:238-239 | during the dwell of a pixel its own tone sounds |
| `Scottie.PictureRoundTrip` | src/open_sstv/core/encoder.py:228-239 | decoding the ideal track of an encoded picture of any size gives back the picture |
| `ScottieReception.HintIsTrueSync` | src/open_sstv/core/sync.py:321-345 | the hint is the VIS end itself for modes with the sync at the line start, and the true place of line 0's sync for those with the sync before red |
| `ScottieReception.ReceivedLineIsExact` | src/open_sstv/core/decoder.py:195-215 | with syncs received at most half a sample off, among admissible noise and losses, every received line from the anchor on is decoded exactly on the grid's position for it |
| `Majority.MedianOfMost` | src/open_sstv/core/demod.py:172-192 | a value that more than half of a window's samples have is the window's median |
| `ScottieDrift.PixelReadIff` | src/open_sstv/core/decoder.py:371-404 | with a sender's clock other than the receiver's, a pixel comes back from every picture if and only if more than half of the samples looked at for it lie in its own dwell |
| `ScottieDrift.SmallDriftReads` | src/open_sstv/core/decoder.py:371-404 | clocks that stay within half a pixel (less two samples) of each other over the reach of a line, and a sync within half a sample: every pixel is looked for mostly in its own dwell |
| `ScottieDrift.LargeDriftMisses` | src/open_sstv/core/decoder.py:371-404 | clocks more than half a pixel (plus two samples) apart there: the first green pixel of every line is not |
| `ScottieDrift.ScottieS1Drift` | src/open_sstv/core/decoder.py:371-387 | Scottie S1 at 48 kHz fits at a drift of one in two thousand and is too far apart at one in a thousand, either way |
| `ScottieReception.SlantStartsOnLines` | src/open_sstv/core/decoder.py:201-212 | for a sender with a steady clock and exact syncs the slant-corrected line starts are within half a sample of the sender's lines, missed lines included |
| `ScottieReception.SlantCorrectedPictureIsExact` | src/open_sstv/core/decoder.py:195-215 | the slant fit corrects line starts only: with clocks that fit, every picture is decoded exactly, with clocks too far apart some picture is not |
| `ScottieReception.ScottieS1LosesPixels` | src/open_sstv/core/decoder.py:195-215 | three syncs of a Scottie S1 sender a tenth of a percent slow that the fit places exactly, and a picture that is lost |
| `Robot36.SampleScan` | src/open_sstv/core/robot36_dsp.py:136-157 | every column is the mean of five samples around its centre, scaled and clipped |
| `Robot36.PixelOfTone` | src/open_sstv/core/robot36_dsp.py:102-133 | a pixel of more than six samples carrying one value's tone is read as that value, rounded |
| `Robot36.NeutralChroma` | src/open_sstv/core/robot36_dsp.py:160-197 | neutral chroma gives grey except for a green one step too low |
| `Robot36.NearBt601` | src/open_sstv/core/robot36_dsp.py:160-197 | over all bytes the integer matrix is within one step of BT.601 in red, two in blue and four in green |
| `Robot36.FillPlanes` | src/open_sstv/core/decoder.py:249-267 | the planes after all received lines: luma everywhere, chroma on the lines that carry it, neutral elsewhere |
| `Robot36.CopyChroma` | src/open_sstv/core/decoder.py:274-280 | every row completed from the line next to it, in place and in order |
| `Robot36.DecodeBatch` | src/open_sstv/core/decoder.py:249-285 | planes filled line by line, then the missing chroma copied from the neighbouring line, for every height including one |
| `Robot36.Robot36IncrementalDecoder.FillMissingChroma` | src/open_sstv/core/incremental_decoder.py:1080-1093 | the missing plane of a row is copied from the nearer line, and nothing else changes |
| `Robot36.Robot36IncrementalDecoder.DecodeWindow` | src/open_sstv/core/incremental_decoder.py:1047-1078 | row n is stored, emitted with the chroma known so far, and row n - 1 is emitted again |
| `Robot36.Robot36IncrementalDecoder.DecodeRows` | src/open_sstv/core/incremental_decoder.py:1047-1103 | all rows fed one by one end in the batch picture |
| `Robot36.FinalAbove` | src/open_sstv/core/incremental_decoder.py:1067-1078 | after row n every row above it has its final chroma |
| `Robot36.CurrentRowFinalIff` | src/open_sstv/core/incremental_decoder.py:1003-1010 | row n itself is final if and only if it is odd, the last, or followed by neutral chroma |
| `Robot36.LiveEndsAsBatch` | src/open_sstv/core/incremental_decoder.py:1080-1093 | the planes of the live decoder end as those of the batch decoder |
| `Robot36Picture.OffsetsAgree` | src/open_sstv/core/robot36_dsp.py:80-87 | the decoder's scan offsets are where the encoder puts the scans |
| `Robot36Picture.RowInPicture` | src/open_sstv/core/encoder.py:109-170 | where the tones of one line lie in the tone sequence of the picture |
| `Robot36Picture.RowIsRead` | src/open_sstv/core/robot36_dsp.py:102-157 | luma comes back exactly, chroma as the rounded average of the pair of rows |
| `Robot36Picture.PictureIsRead` | src/open_sstv/core/encoder.py:101-106 | decoding the ideal track of a picture gives every pixel its own luma and its pair's rounded average chroma |
| `RemoteSafety.KeyingSteps` | src/open_sstv/remote/control.py:354-360 | only a transmit leads into the transmitting state, only an unkey or the report that the rig is unkeyed leads out of it |
| `RemoteSafety.PendingWasGranted` | src/open_sstv/remote/control.py:213-245 | a pending request was granted to the present holder, who has kept the lease since |
| `RemoteSafety.KeyIsAuthorised` | src/open_sstv/remote/control.py:247-293 | every queued transmit was requested and then confirmed by the one client that held the lease throughout, with that request's token, inside the window and with every gate open |
| `RemoteSafety.TokenKeysOnce` | src/open_sstv/remote/control.py:240-241 | with fresh tokens no token keys twice |
| `RemoteSafety.QueueAlternates` | src/open_sstv/remote/control.py:354-360 | over every run the queue has the shape (transmit [unkey])* |
| `RemoteSafety.RefusalIsQuiet` | src/open_sstv/remote/control.py:73-85 | a refused call queues nothing; a call that queues goes on to drain |
| `RemoteActs.StopActs` | src/open_sstv/remote/control.py:175-307 | an abort by the holder from any state but idle, a release by the holder and every local reclaim leave the plane idle with no request and no token, and queue exactly one unkey if and only if the rig was keyed; only the abort keeps the lease |
| `RemoteActs.StopRefused` | src/open_sstv/remote/control.py:295-307 | any other abort or release changes nothing and names the reason |
| `RemoteActs.TickActs` | src/open_sstv/remote/control.py:316-348 | the sweep unkeys a transmission whose last beat is too old or whose gate is off and takes its lease, drops an expired request, frees a silent idle lease, and does nothing else |
| `RemoteActs.RequestActs` | src/open_sstv/remote/control.py:213-245 | a request is granted if and only if every gate is open, its client owns the lease, nothing is in flight and the cooldown is over; otherwise nothing starts |
| `RemoteActs.RequestErrors` | src/open_sstv/remote/control.py:213-239 | a refused request names its first closed gate |
| `RemoteActs.ConfirmActs` | src/open_sstv/remote/control.py:247-293 | a confirm keys the rig if and only if it is awaited with this token from this client, in the window and with every gate open; a closed gate or a passed window ends the request, a wrong token does not |
| `RemoteActs.HeartbeatActs` | src/open_sstv/remote/control.py:199-209 | the holder's heartbeat renews the lease always and the dead-man's-switch while transmitting; nobody else's does |
| `RemoteActs.LeaseActs` | src/open_sstv/remote/control.py:164-173 | the lease goes to whoever asks unless another client owns it |
| `RemoteActs.FinishActs` | src/open_sstv/remote/control.py:309-314 | the report that the rig is done ends a transmission, keeps the lease, and is ignored in any other state |
| `RemoteActs.HandshakeKeys` | src/open_sstv/remote/control.py:164-293 | from any idle plane that is free or the client's own, with the cooldown over, lease, request and confirm key the rig with the requested image |
| `RemoteActs.StopUnkeys` | src/open_sstv/remote/control.py:354-360 | in every run a stop of a keyed rig puts its unkey directly behind the transmit it ends |
| `RemoteActs.StopIsHeard` | src/open_sstv/remote/control.py:362-379 | in every interleaving the unkey has run when the call that stopped the rig is out |
| `RemoteSafety.ReclaimAlwaysWorks` | src/open_sstv/remote/control.py:188-197 | after a local reclaim nothing is pending or keyed and nobody holds the lease |
| `RemoteSafety.LastBeat` | src/open_sstv/remote/control.py:199-209 | the heartbeat clock stands at the keying confirm or at the present holder's last heartbeat |
| `RemoteSafety.DeadMansSwitch` | src/open_sstv/remote/control.py:316-348 | with ticks at most d apart the plane is transmitting only within the heartbeat timeout plus d of the holder's last beat |
| `RemoteSafety.KeysAreSpaced` | src/open_sstv/remote/control.py:407-413 | between two keyings the first transmission ended, and the second came at least the cooldown later |
| `RemoteControl.ControlPlane.constructor` | src/open_sstv/remote/control.py:112-160 | starts idle, with a cooldown of at least zero |
| `RemoteControl.ControlPlane.TakeLeaseCall` | src/open_sstv/remote/control.py:164-173 | one step of the state machine: new state, result, queued callbacks |
| `RemoteControl.ControlPlane.ReleaseLeaseCall` | src/open_sstv/remote/control.py:175-186 | one step of the state machine |
| `RemoteControl.ControlPlane.ReclaimLocalCall` | src/open_sstv/remote/control.py:188-197 | one step of the state machine |
| `RemoteControl.ControlPlane.HeartbeatCall` | src/open_sstv/remote/control.py:199-209 | one step of the state machine |
| `RemoteControl.ControlPlane.RequestCall` | src/open_sstv/remote/control.py:213-245 | one step of the state machine, gates in the source's order |
| `RemoteControl.ControlPlane.ConfirmCall` | src/open_sstv/remote/control.py:247-293 | one step of the state machine, gates in the source's order |
| `RemoteControl.ControlPlane.AbortCall` | src/open_sstv/remote/control.py:295-307 | one step of the state machine |
| `RemoteControl.ControlPlane.OnTxFinished` | src/open_sstv/remote/control.py:309-314 | one step of the state machine |
| `RemoteControl.ControlPlane.TickCall` | src/open_sstv/remote/control.py:316-348 | one step of the state machine |
| `RemoteControl.ControlPlane.HoldsLeaseCall` | src/open_sstv/remote/control.py:390-405 | answers for the effective holder, freeing a lapsed lease |
| `RemoteControl.ControlPlane.Drain` | src/open_sstv/remote/control.py:362-379 | runs the queued callbacks in order and empties the queue |
| `RemoteDispatch.InvKept` | src/open_sstv/remote/control.py:362-379 | every critical section keeps: nothing lost or reordered, one drainer, a non-empty queue has a thread committed to drain it |
| `RemoteDispatch.Linearises` | src/open_sstv/remote/control.py:147-152 | every interleaving acts on the plane like its calls one after another |
| `RemoteDispatch.DispatchInOrder` | src/open_sstv/remote/control.py:91-110 | under any interleaving the started callbacks are a prefix of the queued ones and alternate |
| `RemoteDispatch.ReturnsAfterCallbacks` | src/open_sstv/remote/control.py:362-379 | a call that drains returns only after everything queued up to it has run to completion |
| `RemoteDispatch.QuietMeansDone` | src/open_sstv/remote/control.py:362-379 | with no call in flight every queued callback has run |
| `RemoteDispatch.NoDeadlock` | src/open_sstv/remote/control.py:370-375 | while a thread is inside a call, some thread inside a call can move |
| `Utf8.RoundTrip` | src/open_sstv/logbook/adif.py:364-365 | decoding the UTF-8 bytes of any text gives the text back |
| `Utf8.AsciiSurvives` | src/open_sstv/logbook/adif.py:525-526 | however malformed the bytes of a value are, no ASCII character of theirs is lost, added or moved |
| `Utf8.StrayByte` | src/open_sstv/logbook/adif.py:525-526 | a byte that can begin no character becomes one replacement character |
| `Utf8.AsciiTextReplaces` | src/open_sstv/logbook/adif.py:507-507 | in a tag every byte that is not ASCII becomes a replacement character |
| `Text.CaseFolds` | src/open_sstv/logbook/adif.py:509-509 | texts have the same upper case if and only if they have the same lower case |
| `AdifModes.ExportedModeListed` | src/open_sstv/logbook/adif.py:202-230 | the exported MODE is in the ADIF enumeration for every stored mode |
| `AdifModes.SettleKey` | src/open_sstv/logbook/adif.py:549-569 | what an export and import does to the identity key of any mode |
| `AdifModes.KeyKept` | src/open_sstv/logbook/coordinator.py:101-118 | the key survives a round if and only if the compact mode is not empty and has no white space at its ends |
| `AdifModes.SettlesInTwo` | src/open_sstv/logbook/adif.py:202-250 | after two rounds a mode never changes again |
| `AdifModes.ForeignMode` | src/open_sstv/logbook/adif.py:549-569 | another program's mode becomes its submode under the name that is known for it, but a listed parent mode other than SSTV with a submode the tables do not know becomes the parent, in any case and with white space around it |
| `AdifModes.ParentSurvives` | src/open_sstv/logbook/adif.py:555-567 | such a parent is exported again as it was, not as SSTV |
| `AdifModes.OneRoundIsNotEnough` | src/open_sstv/logbook/adif.py:202-230 | one round is not enough: with any tables that have FT8 as a mode and under no canonical name, "ft-8" becomes "ft8" and then FT8 |
| `AdifModes.TabbedModeLosesKey` | src/open_sstv/logbook/coordinator.py:93-97 | a mode behind a tab has a non-empty compact form and still loses its key |
| `AdifModes.ExcerptOfTables` | src/open_sstv/logbook/adif.py:95-183 | an excerpt of the shipped tables satisfies what is required of the tables |
| `AdifValues.DateTimeRoundTrip` | src/open_sstv/logbook/adif.py:302-342 | every time comes back to the second |
| `AdifValues.FrequencyRoundTrip` | src/open_sstv/logbook/adif.py:266-295 | a frequency comes back exactly when it lies in (0, 300 GHz), and as none otherwise |
| `AdifCodec.BandIs` | src/open_sstv/logbook/adif.py:42-93 | a frequency inside a band, limits included, is given that band |
| `AdifCodec.NoBand` | src/open_sstv/logbook/adif.py:42-93 | a frequency outside every band is given none |
| `AdifCodec.KnownBands` | src/open_sstv/logbook/adif.py:575-580 | the band names an import keeps are exactly those that frequencies have |
| `AdifCodec.IsoReads` | src/open_sstv/logbook/adif.py:440-445 | the time of an export can be read off its header, to the second |
| `AdifLoops.Tokenize` | src/open_sstv/logbook/adif.py:488-527 | the loop by position yields exactly the tokens of the specification |
| `AdifLoops.ImportAdif` | src/open_sstv/logbook/adif.py:598-664 | the loop over tokens yields exactly the records of the specification, built and filtered |
| `AdifLoops.FormatQsoRecord` | src/open_sstv/logbook/adif.py:372-417 | the non-empty fields joined by blanks, then the end marker |
| `AdifLoops.ExportAdif` | src/open_sstv/logbook/adif.py:420-460 | header lines and one line per contact, joined by newlines |
| `AdifRoundTrip.TokensField` | src/open_sstv/logbook/adif.py:355-365 | a written field is read back as its tag and value, whatever bytes the value holds |
| `AdifReader.TokensSpelt` | src/open_sstv/logbook/adif.py:488-527 | a field whose tag is spelled in any case and with any white space, with any spelling of its length and with or without a type, is read as its tag and value, whatever bytes the value holds |
| `AdifReader.TokensEndSpelt` | src/open_sstv/logbook/adif.py:500-527 | so is an end-of-record or end-of-header marker |
| `AdifReader.MalformedSkipped` | src/open_sstv/logbook/adif.py:507-527 | a tag without a length, or whose length is no number or negative, is passed over |
| `AdifReader.UnterminatedRecord` | src/open_sstv/logbook/adif.py:634-664 | a last record without its end marker is read like one with it |
| `AdifRoundTrip.BuildNormal` | src/open_sstv/logbook/adif.py:535-595 | one exported record is read back as the contact's normal form, or as nothing without a callsign |
| `AdifRoundTrip.ExportThenImport` | src/open_sstv/logbook/adif.py:420-664 | importing an export gives every contact with a callsign, in order and in normal form, for any field bytes |
| `AdifReader.ForeignImport` | src/open_sstv/logbook/adif.py:598-664 | the same for a log that another program wrote in its own spelling of tags, lengths, types and gaps, behind any header text without a marker |
| `AdifReader.HeaderlessImport` | src/open_sstv/logbook/adif.py:623-664 | and for one without a header |
| `AdifReader.BlankLead` | src/open_sstv/logbook/adif.py:623-632 | white space in front of a headerless log does not matter |
| `AdifReader.LowerCaseIsValid` | src/open_sstv/logbook/adif.py:507-510 | lower-case tags are such a spelling |
| `AdifReader.SpellingIndifferent` | src/open_sstv/logbook/adif.py:535-595 | case and white space of coded values do not matter |
| `AdifReader.ShortTime` | src/open_sstv/logbook/adif.py:302-342 | a time without seconds is read as second 0 |
| `AdifFields.MonthsAreGregorian` | src/open_sstv/logbook/adif.py:331-342 | the months have the days of the Gregorian day count |
| `AdifFields.DateIsRead` | src/open_sstv/logbook/adif.py:312-342 | digits in the places of a date and a time are read as that time if the calendar has it and as none otherwise, whatever white space is around them |
| `AdifFields.DatesAreDays` | src/open_sstv/logbook/adif.py:331-342 | the dates that exist are exactly the days of the day count, in the years 1 to 9999 |
| `AdifFields.TimesAreSeconds` | src/open_sstv/logbook/adif.py:331-342 | the times of a day are exactly its 86400 seconds |
| `AdifFields.IntIsRead` | src/open_sstv/logbook/adif.py:515-519 | a length is read as the integer its sign and digits say, whatever white space is around them |
| `AdifFields.UnderscoreIsRead` | src/open_sstv/logbook/adif.py:515-519 | a single underscore between digits does not matter |
| `AdifFields.NoNumber` | src/open_sstv/logbook/adif.py:515-519 | anything else in it makes it no number |
| `AdifFields.DecimalIsRead` | src/open_sstv/logbook/adif.py:279-295 | any decimal number of megahertz, with any number of places, an exponent, a plus or white space, is read as the nearest hertz, ties to even, if that is above zero and below 300 GHz |
| `AdifFields.ExponentIsRead` | src/open_sstv/logbook/adif.py:287-291 | an exponent is its sign and digits, and white space in it makes the text no number |
| `AdifRoundTrip.MarkedVersionLosesAll` | src/open_sstv/logbook/adif.py:623-632 | a program version with an end-of-header marker in it can make the import return nothing |
| `AdifVersion.PlainTailRoundTrips` | src/open_sstv/logbook/adif.py:623-664 | a version with a marker and no `<` behind it still brings every log back |
| `AdifVersion.MarkerSeen` | src/open_sstv/logbook/adif.py:488-664 | a version with a marker whose rest, with the header line behind it, ends no value past its end: the import is what that rest's own closed records build, then the log; so every log comes back if and only if they build nothing |
| `AdifVersion.MarkerSwallowed` | src/open_sstv/logbook/adif.py:488-664 | when a value of that rest swallows only the header's own marker: a log comes back if and only if the rest closes no record that builds and the fields it leaves open do not change the first contact |
| `AdifVersion.RecordSwallowed` | src/open_sstv/logbook/adif.py:488-664 | when such a value reaches into the records, some log of one contact does not come back |
| `LogImport.LogbookStore.DedupeKeys` | src/open_sstv/logbook/store.py:465-477 | the keys of all rows whose callsign is not empty |
| `LogImport.LogbookStore.InsertMany` | src/open_sstv/logbook/store.py:293-316 | all rows are appended, and their number returned |
| `LogImport.LogbookCoordinator.ImportQsos` | src/open_sstv/logbook/coordinator.py:255-285 | an entry is inserted if and only if it has no callsign or is the first with its key; added plus skipped is the batch size |
| `LogImport.EveryKeyStored` | src/open_sstv/logbook/coordinator.py:255-285 | after an import every entry with a callsign is represented in the store |
| `LogImport.ImportKeepsDistinct` | src/open_sstv/logbook/coordinator.py:258-260 | an import never makes two callsigned rows with one key |
| `LogImport.SecondImportAddsNothing` | src/open_sstv/logbook/coordinator.py:255-285 | importing the same callsigned batch again adds nothing |
| `LogImport.ReimportAddsNothingIff` | src/open_sstv/logbook/coordinator.py:93-118 | for every log: importing our own export adds nothing if and only if every callsigned row is represented under its settled key (same callsign and time, mode SSTV or the stripped compact mode) |
| `LogImport.ReimportAddsNothing` | src/open_sstv/logbook/coordinator.py:258-260 | so it is when the mode of every contact keeps its key |
| `LogImport.ReimportOfOneContact` | src/open_sstv/logbook/coordinator.py:258-260 | a log of one contact grows if and only if its mode does not keep its key |
| `LogImport.ReimportOfNoMode` | src/open_sstv/logbook/adif.py:549-569 | a record without MODE is stored without one and comes back as a second row with mode SSTV |
| `LogImport.RepresentedByAnother` | src/open_sstv/logbook/coordinator.py:93-118 | a row without a mode beside the same contact in SSTV is represented, though its own key is lost |
| `Rigctld.CompleteIffWhole` | src/open_sstv/radio/rigctld.py:340-354 | in whatever pieces it arrives, a well-formed reply passes the stop test if and only if all of it is there |
| `Rigctld.ReadsWhole` | src/open_sstv/radio/rigctld.py:316-354 | reading ends with the whole reply and an empty socket, or with a failure |
| `Rigctld.LimitsDecide` | src/open_sstv/radio/rigctld.py:316-346 | whatever the daemon sends, an accepted reply is what came and within the byte and line limits, and one is refused as too long only when it is |
| `Rigctld.WellFormedMeans` | src/open_sstv/radio/rigctld.py:283-306 | a reply means its RPRT number and the lines in front of it without the echoed command |
| `Rigctld.EchoIsNamed` | src/open_sstv/radio/rigctld.py:362-383 | the first line is dropped exactly when it begins with the long name of the command, get_ for a small letter and set_ for a capital one, and a colon |
| `Rigctld.ValueIsNoEcho` | src/open_sstv/radio/rigctld.py:373-383 | a line without a colon is never taken for an echo |
| `Rigctld.OthersHaveNoEcho` | src/open_sstv/radio/rigctld.py:362-383 | no other command has an echo |
| `Rigctld.NeverOffByOne` | src/open_sstv/radio/rigctld.py:218-268 | over any history an idle open socket has nothing due, and every result is the answer to its own command |
| `RigctldActs.EveryCommandIsAnswered` | src/open_sstv/radio/rigctld.py:218-268 | over any history, a command that reaches the daemon and whose reply comes through is answered by its own reply |
| `RigctldActs.ReadIffTaken` | src/open_sstv/radio/rigctld.py:316-354 | a well-formed reply is read if and only if the recvs before the first failure take all of it |
| `RigctldActs.CommandIsAnswered` | src/open_sstv/radio/rigctld.py:218-306 | such a command is answered whatever a second attempt would do, and leaves the socket open and idle |
| `RigctldActs.SecondAttemptAnswers` | src/open_sstv/radio/rigctld.py:246-256 | after a broken link the command is answered by the second attempt |
| `RigctldActs.RetriedOnlyAfterBreak` | src/open_sstv/radio/rigctld.py:246-268 | the second attempt matters after a broken link only |
| `RigctldActs.WhatBreaks` | src/open_sstv/radio/rigctld.py:246-268 | a link breaks exactly when sending fails so or the peer closes or resets before the whole reply; no connection and a timeout are no break |
| `RigctldActs.FailureCloses` | src/open_sstv/radio/rigctld.py:246-268 | a connection error always leaves the socket closed |
| `RigctldActs.OpenAndClose` | src/open_sstv/radio/rigctld.py:95-103 | opening keeps an open socket and succeeds exactly when there is one afterwards; closing leaves none |
| `Rigctld.BadReplyClosesFirstOnly` | src/open_sstv/radio/rigctld.py:240-256 | an unreadable reply closes the socket if and only if it was read in the first attempt |
| `Rigctld.StaleReplyAccepted` | src/open_sstv/radio/rigctld.py:246-256 | an unreadable reply in the second attempt can make the next, rejected command look accepted |
| `RigctldClient.Client.ConnectLocked` | src/open_sstv/radio/rigctld.py:178-208 | connects only when there is no socket |
| `RigctldClient.Client.ReadUntilRprt` | src/open_sstv/radio/rigctld.py:316-359 | the receive loop computes the specified outcome and leaves the specified bytes unread |
| `RigctldClient.Client.SendRecvLocked` | src/open_sstv/radio/rigctld.py:270-306 | send, read and interpret as specified |
| `RigctldClient.Client.SendRecv` | src/open_sstv/radio/rigctld.py:218-268 | which failures close the socket, and the single retry |
| `CivFrames.SplitConcat` | src/open_sstv/radio/serial_rig.py:505-515 | cutting frames out of a stream in two pieces is cutting them out of the whole |
| `CivFrames.TakeFrames` | src/open_sstv/radio/serial_rig.py:505-554 | the inner loop stops at the first frame that answers the command |
| `CivFrames.ReadResponse` | src/open_sstv/radio/serial_rig.py:448-557 | the result depends only on the concatenated bytes, not on how reads were chunked |
| `CivFrames.SuccessIsOwn` | src/open_sstv/radio/serial_rig.py:516-554 | a set succeeds only on the addressed rig's OK frame, a read only on its data frame echoing the command, with no rejection before |
| `CivFrames.EchoThenReply` | src/open_sstv/radio/serial_rig.py:430-439 | the echo of the own command is passed over and the rig's reply returned |
| `CivFrames.EchoThenVerdict` | src/open_sstv/radio/serial_rig.py:516-554 | behind the echo of a set the rig's OK frame makes it succeed and its rejection makes it fail |
| `CivFrames.FreqToBcd` | src/open_sstv/radio/serial_rig.py:578-590 | the loop writes the ten low digits, lowest pair first; negative is an error |
| `CivFrames.BcdToFreq` | src/open_sstv/radio/serial_rig.py:568-576 | the loop computes the value of the first five bytes |
| `CivFrames.BcdRoundTrip` | src/open_sstv/radio/serial_rig.py:568-590 | decoding an encoded frequency gives it modulo 10^10 |
| `CivFrames.BcdInverse` | src/open_sstv/radio/serial_rig.py:568-590 | every string of BCD bytes is the encoding of its value |
| `CivFrames.FrequencyIsRead` | src/open_sstv/radio/serial_rig.py:326-335 | a rig tuned below 10^10 Hz is read as that frequency |
| `Playback.InvKept` | src/open_sstv/audio/output_stream.py:216-233 | every step keeps the transmission counter, the lock and the published stream consistent |
| `Playback.ResetNeverOverlapsStream` | src/open_sstv/audio/output_stream.py:216-233 | in every interleaving no thread has a stream, or is about to open one, while a reset runs |
| `Playback.AbortOnlyLiveStream` | src/open_sstv/audio/output_stream.py:583-608 | in every interleaving the stream that stop aborts is published and not being closed |
| `Playback.StopFindsIff` | src/open_sstv/audio/output_stream.py:583-608 | in every interleaving stop aborts the stream a thread has published if and only if nobody published or cleared since |
| `Playback.StopFindsTheOnlyStream` | src/open_sstv/audio/output_stream.py:334-339 | when every playback starts while none is active, stop always finds the published stream |
| `Playback.StopCanMissAnEarlierStream` | src/open_sstv/audio/output_stream.py:544-546 | with two transmissions the end of the later one hides the earlier one from stop |
| `Playback.Player.AudioCallback` | src/open_sstv/audio/output_stream.py:388-424 | one block: the next samples under the gain, then silence; stops when the buffer is used up or stop was set |
| `Playback.Drive` | src/open_sstv/audio/output_stream.py:388-424 | a sequence of blocks of any sizes writes the specified output, and a block asks to stop exactly when the blocks up to it cover the buffer |
| `Playback.PlaysBufferOnce` | src/open_sstv/audio/output_stream.py:388-424 | at unity gain the output is the buffer exactly once and in order, then silence |
| `Playback.StopsWhenDone` | src/open_sstv/audio/output_stream.py:423-424 | the position stands at the end of the buffer exactly when the blocks so far cover it |
| `Playback.GainStaysInRange` | src/open_sstv/audio/output_stream.py:402-411 | a gain never takes a sample outside the clip range |
| `Playback.GainIsApplied` | src/open_sstv/audio/output_stream.py:402-411 | a gain gives the product towards zero where it is in range, and the range's end where it is not |
| `Playback.GainKeepsOrder` | src/open_sstv/audio/output_stream.py:402-411 | a gain that is not negative keeps the order of the samples |

## Left out

- Filters, the Hilbert transform, smoothing, sync search and header detection: their results
  are inputs of any value. A decoded line of `LineDecoder` is its audio window.
- Floating point: reals and exact decimals, with Python's rounding kept. A not-a-number
  sample, which the samplers treat as neutral or black, does not exist among the reals.
- Pillow, PySSTV beyond `byte_to_freq`, and the modes other than Scottie and Robot 36:
  their decoders repeat the same sampling at other offsets.
- Sockets, serial ports, PortAudio, SQLite, clocks and threads as such: what they do is a
  parameter, an arbitrary choice or an action of the state machine. The store is a sequence
  of rows, rows are only ever inserted, and an insert does not fail.
- Case mapping outside ASCII, and digits outside ASCII in dates and lengths, which Python
  also accepts. Python's limit of 4300 digits for `int` is not modelled.
- Years below 1000 are written with four digits; Python versions differ in this.
- The full mode tables: the theorems hold for all tables with the properties
  `AdifModes.Tables.Valid` lists, and an excerpt of the shipped ones is shown to have them.
- Image and audio paths, ids and row timestamps of a contact: they are not exported.
- Playback progress reports, stall detection, PipeWire routing and the health check: they
  abort or observe a playback, and abort is one of the actions.
- `ControlPlane.status` and configuration reading: they read one field each.
- AdifVersion.RecordSwallowed: gives one failing log for each such version and does not say
  which other logs fail.
- Robot36Picture.PictureIsRead: cannot be an exact round trip, because the encoder averages the
  chroma of two rows and the colour matrix rounds; it says exactly what comes back.
- Scottie.PictureRoundTrip: is about the ideal frequency staircase, not about synthesised and
  demodulated audio.
- SlantExact.DriftRemoved: asks for three received lines from the anchor on, below which the
  source does not fit at all, and for syncs exactly on their lines.
- SlantOutliers.StraysDoNotMoveLines: its bound on the strays is enough and not the least;
  `SlantOutliers.StraysDropped` decides a smaller stray from how the first line runs.
- ScottieReception.SlantCorrectedPictureIsExact: its two bounds on the drift lie about four
  samples apart; in between `ScottieDrift.PixelReadIff` decides each pixel.
- StreamDecoder.MemoryIsBounded: takes a header with an unknown code to lie within the last
  three seconds of the buffer; what is kept behind an earlier one is bounded by the chunk only.
- CivFrames.SuccessIsOwn: cannot tell a late OK for an earlier set from the awaited one,
  because CI-V acknowledgements carry no command.
- StreamDecoder.FeedFollows: the incremental backend is any function of its chunks whose rows
  stay inside the picture, the several looks at the cancel event in one batch decode are one,
  and audio values are not cleaned of infinities first.
- Rigctld.NeverOffByOne: assumes one well-formed reply per command within the line and byte
  limits.
- RemoteSafety.DeadMansSwitch: assumes a monotone clock and that the tick is called.
