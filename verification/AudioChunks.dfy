/** Re-chunking of decoded audio for the sound card: the callbacks of ffplay and of the
    player copy buffers of whatever size the decoder returns into output buffers of
    whatever size the driver asks for. */
module AudioChunks {

  import opened Bytes

  /** SDL_AUDIO_BUFFER_SIZE of ffplay, the size of its silence buffer, and the literal in the
      callback of the player. */
  const SILENCE_BYTES: nat := 1024

  /** What a call of audio_decode_frame returns. */
  datatype Decoded = Frame(data: seq<byte>) | Failed

  /** A failed call is heard as silence. */
  function Heard(d: Decoded, silence: nat): seq<byte> {
    if d.Frame? then d.data else seq(silence, _ => 0)
  }

  lemma WhatIsHeard(d: Decoded, silence: nat)
    ensures match d
            case Frame(data) => Heard(d, silence) == data
            case Failed => |Heard(d, silence)| == silence && forall i :: 0 <= i < silence ==> Heard(d, silence)[i] == 0
  {
  }

  /** The sound that a list of decoder results stands for. */
  function Sound(ds: seq<Decoded>, silence: nat): seq<byte> {
    if ds == [] then [] else Sound(ds[..|ds| - 1], silence) + Heard(ds[|ds| - 1], silence)
  }

  lemma SoundAppend(ds: seq<Decoded>, d: Decoded, silence: nat)
    ensures Sound(ds + [d], silence) == Sound(ds, silence) + Heard(d, silence)
  {
    assert (ds + [d])[..|ds|] == ds;
  }

  lemma {:induction false} SoundConcat(a: seq<Decoded>, b: seq<Decoded>, silence: nat)
    ensures Sound(a + b, silence) == Sound(a, silence) + Sound(b, silence)
  {
    if b == [] {
      assert a + b == a;
      assert Sound(a, silence) + [] == Sound(a, silence);
    } else {
      hide Sound, Heard;
      var init, last := b[..|b| - 1], b[|b| - 1];
      SoundConcat(a, init, silence);
      LastApart(a, b);
      SoundAppend(a + init, last, silence);
      SoundAppend(init, last, silence);
      Regroup(Sound(a, silence), Sound(init, silence), Heard(last, silence));
    }
  }

  lemma LastApart(a: seq<Decoded>, b: seq<Decoded>)
    requires b != []
    ensures b == b[..|b| - 1] + [b[|b| - 1]] && a + b == (a + b[..|b| - 1]) + [b[|b| - 1]]
  {
  }

  lemma MoveFirst(a: seq<Decoded>, b: seq<Decoded>)
    requires b != []
    ensures (a + [b[0]]) + b[1..] == a + b
  {
  }

  lemma CutFront(s: seq<byte>, from: nat, n: nat)
    requires from + n <= |s|
    ensures s[from..] == s[from..from + n] + s[from + n..]
  {
  }

  /** A piece taken from the front of the rest of s goes to the end of a. */
  lemma MovePiece(a: seq<byte>, s: seq<byte>, from: nat, n: nat)
    requires from + n <= |s|
    ensures (a + s[from..from + n]) + s[from + n..] == a + s[from..]
  {
    CutFront(s, from, n);
    Regroup(a, s[from..from + n], s[from + n..]);
  }

  /** What was decoded is what was played followed by the rest of buf, which is the last
      buffer. */
  ghost predicate Accounted(played: seq<byte>, buf: seq<byte>, index: nat, decoded: seq<Decoded>, silence: nat) {
    && index <= |buf| && played + buf[index..] == Sound(decoded, silence)
    && (decoded == [] ==> buf == [])
    && (decoded != [] ==> buf == Heard(decoded[|decoded| - 1], silence))
  }

  /** Playing a piece of the buffer. */
  lemma PiecePlayed(played: seq<byte>, buf: seq<byte>, index: nat, n: nat, decoded: seq<Decoded>, silence: nat)
    requires Accounted(played, buf, index, decoded, silence) && index + n <= |buf|
    ensures Accounted(played + buf[index..index + n], buf, index + n, decoded, silence)
  {
    hide Sound, Heard;
    MovePiece(played, buf, index, n);
  }

  class AudioOutput {
    const silence: nat
    var audioBuf: array<byte>
    var audioBufSize: nat
    var audioBufIndex: nat

    /** What the decoder will return, call by call. */
    var supply: seq<Decoded>

    ghost var decoded: seq<Decoded>
    ghost var played: seq<byte>

    ghost predicate Valid()
      reads this, audioBuf
    {
      && audioBufIndex <= audioBufSize == audioBuf.Length
      && Accounted(played, audioBuf[..], audioBufIndex, decoded, silence)
    }

    /** ffplay: silence is cut to the largest whole number of frames of frameSize bytes. */
    constructor Ffplay(frameSize: nat, supply: seq<Decoded>)
      requires frameSize > 0
      ensures Valid() && fresh(audioBuf)
      ensures silence % frameSize == 0 && 1024 - frameSize < silence <= 1024
      ensures this.supply == supply && decoded == [] && played == []
    {
      MultipleOf(SILENCE_BYTES / frameSize, frameSize);
      silence := SILENCE_BYTES / frameSize * frameSize;
      audioBuf, audioBufSize, audioBufIndex := new byte[0], 0, 0;
      this.supply, decoded, played := supply, [], [];
    }

    /** The player, when its index and size start at 0. */
    constructor Player(supply: seq<Decoded>)
      ensures Valid() && fresh(audioBuf) && silence == 1024
      ensures this.supply == supply && decoded == [] && played == []
    {
      silence := SILENCE_BYTES;
      audioBuf, audioBufSize, audioBufIndex := new byte[0], 0, 0;
      this.supply, decoded, played := supply, [], [];
    }

    /** The refill of the callback: the next decoder result, or silence. */
    method Refill()
      requires Valid() && audioBufIndex >= audioBufSize && supply != []
      modifies this
      ensures Valid() && fresh(audioBuf) && audioBufIndex == 0 && played == old(played)
      ensures supply == old(supply)[1..] && decoded == old(decoded) + [old(supply)[0]]
      ensures match old(supply)[0]
              case Frame(data) => audioBuf[..] == data
              case Failed => |audioBuf[..]| == silence && forall i :: 0 <= i < silence ==> audioBuf[..][i] == 0
    {
      hide Sound, Heard;
      var d := supply[0];
      supply := supply[1..];
      var data := Heard(d, silence);
      audioBuf := new byte[|data|](i requires 0 <= i < |data| => data[i]);
      audioBufSize := |data|;
      audioBufIndex := 0;
      SoundAppend(decoded, d, silence);
      decoded := decoded + [d];
      assert audioBuf[..] == data;
      WhatIsHeard(d, silence);
    }

    /** memcpy. */
    method CopyBytes(stream: array<byte>, from: nat, len1: nat)
      requires stream != audioBuf && from + len1 <= stream.Length && audioBufIndex + len1 <= audioBuf.Length
      modifies stream
      ensures stream[..from] == old(stream[..from]) && stream[from + len1..] == old(stream[from + len1..])
      ensures stream[from..from + len1] == audioBuf[..][audioBufIndex..audioBufIndex + len1]
    {
      forall i | 0 <= i < len1 {
        stream[from + i] := audioBuf[audioBufIndex + i];
      }
    }

    /** The copy of one round: as much as both the buffer and the request allow. */
    method Copy(stream: array<byte>, from: nat) returns (to: nat)
      requires Valid() && stream != audioBuf && from <= stream.Length
      modifies this`audioBufIndex, this`played, stream
      ensures Valid() && to - from == audioBufIndex - old(audioBufIndex) >= 0
      ensures to == stream.Length || (to < stream.Length && audioBufIndex == audioBufSize)
      ensures stream[..from] == old(stream[..from]) && stream[to..] == old(stream[to..])
      ensures played == old(played) + stream[from..to]
    {
      hide Accounted;
      var len := stream.Length - from;
      var len1 := audioBufSize - audioBufIndex;
      if len1 > len {
        len1 := len;
      }
      ghost var buf := audioBuf[..];
      PiecePlayed(played, buf, audioBufIndex, len1, decoded, silence);
      CopyBytes(stream, from, len1);
      to := from + len1;
      ghost var piece := stream[from..to];
      assert piece == buf[audioBufIndex..audioBufIndex + len1];
      played := played + piece;
      audioBufIndex := audioBufIndex + len1;
      assert audioBuf[..] == buf;
    }

    /** The callback.  It returns early only in place of blocking for ever in a decoder
        that has nothing more to return. */
    method Callback(stream: array<byte>) returns (written: nat)
      requires Valid() && stream != audioBuf
      modifies this, stream
      ensures Valid() && (audioBuf == old(audioBuf) || fresh(audioBuf))
      ensures written <= stream.Length && (written < stream.Length ==> supply == [] && audioBufIndex == audioBufSize)
      ensures played == old(played) + stream[..written] && stream[written..] == old(stream[written..])
      ensures decoded + supply == old(decoded + supply) && |decoded| >= old(|decoded|)
    {
      hide Sound, Heard;
      written := 0;
      assert played == played + stream[..0];
      while written < stream.Length
        invariant Valid() && written <= stream.Length && (audioBuf == old(audioBuf) || fresh(audioBuf))
        invariant stream != audioBuf
        invariant written < stream.Length ==> written == 0 || audioBufIndex == audioBufSize
        invariant played == old(played) + stream[..written] && stream[written..] == old(stream[written..])
        invariant decoded + supply == old(decoded + supply) && old(|decoded|) <= |decoded|
        decreases |supply|, stream.Length - written, audioBufSize - audioBufIndex
      {
        if audioBufIndex >= audioBufSize {
          if supply == [] {
            break;
          }
          MoveFirst(decoded, supply);
          Refill();
        }
        ghost var head := stream[..written];
        var start := written;
        written := Copy(stream, start);
        assert stream[..written] == head + stream[start..written];
        Regroup(old(played), head, stream[start..written]);
      }
    }
  }

  // ---------- What the invariant means ----------

  /** Whatever the lengths of the callbacks and of the decoded buffers, what was played is
      a prefix of what the decoder supplies: no byte is lost, repeated or reordered. */
  lemma PlayedIsPrefix(o: AudioOutput)
    requires o.Valid()
    ensures o.played <= Sound(o.decoded + o.supply, o.silence)
  {
    hide Sound, Heard;
    var rest := o.audioBuf[..][o.audioBufIndex..];
    SoundConcat(o.decoded, o.supply, o.silence);
    Regroup(o.played, rest, Sound(o.supply, o.silence));
  }

  /** Where the k-th decoder result begins, when a failed call lasts silence bytes. */
  function Start(ds: seq<Decoded>, k: nat, silence: nat): nat
    requires k <= |ds|
  {
    if k == 0 then 0 else Start(ds, k - 1, silence) + if ds[k - 1].Frame? then |ds[k - 1].data| else silence
  }

  /** Every byte that is played is a byte of a decoded frame at its place, or 0 in the place of
      a failed call. */
  lemma PlayedByte(o: AudioOutput, k: nat, q: nat)
    requires o.Valid() && k < |o.decoded|
    requires q < if o.decoded[k].Frame? then |o.decoded[k].data| else o.silence
    requires Start(o.decoded, k, o.silence) + q < |o.played|
    ensures o.played[Start(o.decoded, k, o.silence) + q] ==
            if o.decoded[k].Frame? then o.decoded[k].data[q] else 0
  {
    hide Sound, Start, Heard;
    SoundByte(o.decoded, k, q, o.silence);
    InFront(o.played, o.audioBuf[..][o.audioBufIndex..], Start(o.decoded, k, o.silence) + q);
  }

  lemma InFront(a: seq<byte>, b: seq<byte>, i: nat)
    ensures if i < |a| then (a + b)[i] == a[i] else i < |a| + |b| ==> (a + b)[i] == b[i - |a|]
  {
  }

  /** Every byte played has such a place. */
  lemma {:induction false} PlaceOf(ds: seq<Decoded>, silence: nat, p: nat) returns (k: nat, q: nat)
    requires p < Start(ds, |ds|, silence)
    ensures k < |ds| && q < (if ds[k].Frame? then |ds[k].data| else silence) && p == Start(ds, k, silence) + q
    decreases |ds|
  {
    var n := |ds| - 1;
    StartPrefix(ds, n, silence);
    if p < Start(ds, n, silence) {
      k, q := PlaceOf(ds[..n], silence, p);
      StartPrefix(ds, k, silence);
    } else {
      k, q := n, p - Start(ds, n, silence);
    }
  }

  lemma {:induction false} StartPrefix(ds: seq<Decoded>, k: nat, silence: nat)
    requires k < |ds|
    ensures Start(ds[..|ds| - 1], k, silence) == Start(ds, k, silence)
  {
    if k > 0 { StartPrefix(ds, k - 1, silence); }
  }

  lemma {:induction false} SoundByte(ds: seq<Decoded>, k: nat, q: nat, silence: nat)
    requires k < |ds| && q < if ds[k].Frame? then |ds[k].data| else silence
    ensures Start(ds, |ds|, silence) == |Sound(ds, silence)|
    ensures Start(ds, k, silence) + q < |Sound(ds, silence)|
    ensures Sound(ds, silence)[Start(ds, k, silence) + q] == if ds[k].Frame? then ds[k].data[q] else 0
    decreases |ds|
  {
    hide Sound, Heard;
    var n := |ds| - 1;
    WhatIsHeard(ds[n], silence);
    LastSound(ds, silence);
    SoundLength(ds[..n], silence);
    StartPrefix(ds, k, silence);
    StartPrefix(ds, n, silence);
    if k < n { SoundByte(ds[..n], k, q, silence); }
    InFront(Sound(ds[..n], silence), Heard(ds[n], silence), Start(ds, k, silence) + q);
  }

  lemma {:induction false} SoundLength(ds: seq<Decoded>, silence: nat)
    ensures |Sound(ds, silence)| == Start(ds, |ds|, silence)
    decreases |ds|
  {
    if ds != [] {
      var n := |ds| - 1;
      SoundLength(ds[..n], silence);
      StartPrefix(ds, n, silence);
    }
  }

  /** If no call failed, what was played is a prefix of the decoded data put together. */
  lemma PlayedIsData(o: AudioOutput)
    requires o.Valid() && forall d :: d in o.decoded + o.supply ==> d.Frame?
    ensures o.played <= Joined(DataOf(o.decoded + o.supply))
  {
    PlayedIsPrefix(o);
    FramesSound(o.decoded + o.supply, o.silence);
  }

  function DataOf(ds: seq<Decoded>): seq<seq<byte>>
    requires forall d :: d in ds ==> d.Frame?
  {
    seq(|ds|, i requires 0 <= i < |ds| => ds[i].data)
  }

  lemma {:induction false} FramesSound(ds: seq<Decoded>, silence: nat)
    requires forall d :: d in ds ==> d.Frame?
    ensures Sound(ds, silence) == Joined(DataOf(ds))
  {
    if ds != [] {
      var init := ds[..|ds| - 1];
      FramesSound(init, silence);
      assert DataOf(ds) == DataOf(init) + [ds[|ds| - 1].data];
      JoinedAppend(DataOf(init), ds[|ds| - 1].data);
    }
  }

  /** The decoder is never more than one buffer ahead of the sound card: all buffers before
      the last one are played, and so much of the last one as its index says. */
  lemma OneBufferAhead(o: AudioOutput)
    requires o.Valid() && o.decoded != []
    ensures Sound(o.decoded[..|o.decoded| - 1], o.silence) <= o.played
    ensures |o.played| == |Sound(o.decoded[..|o.decoded| - 1], o.silence)| + o.audioBufIndex
  {
    hide Sound, Heard;
    var rest := o.audioBuf[..][o.audioBufIndex..];
    var before := Sound(o.decoded[..|o.decoded| - 1], o.silence);
    LastSound(o.decoded, o.silence);
    assert before == (o.played + rest)[..|before|];
  }

  lemma LastSound(ds: seq<Decoded>, silence: nat)
    requires ds != []
    ensures Sound(ds, silence) == Sound(ds[..|ds| - 1], silence) + Heard(ds[|ds| - 1], silence)
  {
  }

  // ---------- Whole frames ----------

  ghost predicate WholeFrames(ds: seq<Decoded>, frameSize: nat)
    requires frameSize > 0
  {
    forall i :: 0 <= i < |ds| && ds[i].Frame? ==> Whole(|ds[i].data|, frameSize)
  }

  ghost predicate Whole(n: nat, frameSize: nat)
    requires frameSize > 0
  {
    n % frameSize == 0
  }

  lemma WholePlus(a: nat, b: nat, f: nat)
    requires f > 0 && Whole(a, f) && Whole(b, f)
    ensures Whole(a + b, f)
  {
    AddMultiple(a, b, f);
  }

  lemma MultipleOf(k: nat, f: nat)
    requires f > 0
    ensures (k * f) % f == 0
    decreases k
  {
    if k > 0 {
      MultipleOf(k - 1, f);
      assert k * f == (k - 1) * f + f;
      AddMultiple((k - 1) * f, f, f);
    } else {
      assert k * f == 0;
    }
  }

  lemma AddMultiple(a: nat, b: nat, f: nat)
    requires f > 0 && a % f == 0
    ensures (a + b) % f == b % f
  {
    var p, q, r := a / f, b / f, (a + b) / f;
    assert a == f * p && b == f * q + b % f;
    assert a + b == f * (p + q) + b % f;
    assert a + b == f * r + (a + b) % f;
    assert f * (p + q - r) == (a + b) % f - b % f;
    MultipleSize(p + q - r, f);
  }

  lemma MultipleSize(d: int, f: nat)
    ensures d >= 1 ==> f * d >= f
    ensures d <= -1 ==> f * d + f <= 0
  {
    assert d >= 1 ==> f * (d - 1) >= 0;
    assert d <= -1 ==> f * (d + 1) <= 0;
  }

  lemma {:induction false} WholeSound(ds: seq<Decoded>, silence: nat, frameSize: nat)
    requires frameSize > 0 && WholeFrames(ds, frameSize) && Whole(silence, frameSize)
    ensures Whole(|Sound(ds, silence)|, frameSize)
  {
    if ds == [] {
      assert Whole(0, frameSize);
    } else {
      hide Whole;
      var init := ds[..|ds| - 1];
      WholeSound(init, silence, frameSize);
      WholePlus(|Sound(init, silence)|, |Heard(ds[|ds| - 1], silence)|, frameSize);
    }
  }

  /** Silence of a given length keeps every sound in whole frames exactly if it is a whole
      number of frames itself. */
  lemma SilenceKeepsFramesIff(silence: nat, frameSize: nat)
    requires frameSize > 0
    ensures (forall ds :: WholeFrames(ds, frameSize) ==> |Sound(ds, silence)| % frameSize == 0)
            <==> silence % frameSize == 0
  {
    if silence % frameSize == 0 {
      forall ds | WholeFrames(ds, frameSize)
        ensures |Sound(ds, silence)| % frameSize == 0
      {
        WholeSound(ds, silence, frameSize);
      }
    } else {
      var ds := [Failed];
      assert WholeFrames(ds, frameSize) && ds[..0] == [] && |Sound(ds, silence)| == silence;
    }
  }

  /** Then the next byte to be played is at the same place within its frame as in the decoded
      buffer, whatever the lengths of the callbacks: the channels stay in step. */
  lemma ChannelsStayInStep(o: AudioOutput, frameSize: nat)
    requires o.Valid() && frameSize > 0 && WholeFrames(o.decoded, frameSize) && o.silence % frameSize == 0
    ensures |o.played| % frameSize == o.audioBufIndex % frameSize
  {
    hide Sound, Heard;
    if o.decoded == [] {
      NoSound(o.silence);
    } else {
      var init := o.decoded[..|o.decoded| - 1];
      OneBufferAhead(o);
      WholeSound(init, o.silence, frameSize);
      AddMultiple(|Sound(init, o.silence)|, o.audioBufIndex, frameSize);
    }
  }

  lemma NoSound(silence: nat)
    ensures Sound([], silence) == []
  {
  }
}
