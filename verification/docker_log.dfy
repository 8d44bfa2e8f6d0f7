/** Taking the stream headers out of a container log. */
module DockerLog {
  import opened NetAddr
  import opened Options

  /** A frame of the Docker Engine API's attach stream: which stream, and what was written to it. */
  datatype Frame = Frame(stream: Byte, payload: seq<Byte>)
  {
    predicate Valid() { stream <= 2 && |payload| < 0x1_0000_0000 }
  }

  function Length32(b: seq<Byte>): nat
    requires |b| == 4
  {
    (((b[0] as int) * 256 + b[1]) * 256 + b[2]) * 256 + b[3]
  }

  function Bytes32(n: nat): (b: seq<Byte>)
    requires n < 0x1_0000_0000
    ensures |b| == 4 && Length32(b) == n
  {
    var q := n / 256;
    var r := q / 256;
    [r / 256, r % 256, q % 256, n % 256]
  }

  function Encoded(f: Frame): seq<Byte>
    requires f.Valid()
  {
    [f.stream, 0, 0, 0] + Bytes32(|f.payload|) + f.payload
  }

  predicate AllValid(frames: seq<Frame>) { forall i :: 0 <= i < |frames| ==> frames[i].Valid() }

  function Encode(frames: seq<Frame>): seq<Byte>
    requires AllValid(frames)
  {
    if frames == [] then [] else Encoded(frames[0]) + Encode(frames[1..])
  }

  function Payloads(frames: seq<Frame>): seq<Byte> {
    if frames == [] then [] else frames[0].payload + Payloads(frames[1..])
  }

  /** Whether raw, of at least eight bytes, starts with a frame header. */
  predicate Headed(raw: seq<Byte>)
    requires |raw| >= 8
  {
    raw[0] <= 2 && raw[1] == 0 && raw[2] == 0 && raw[3] == 0
  }

  /** What the frames of raw hold, or None where a header is not one. */
  function Unframed(raw: seq<Byte>): Option<seq<Byte>> {
    if |raw| < 8 then Some([])
    else if !Headed(raw) then None
    else
      var n, rest := Length32(raw[4..8]), raw[8..];
      if n > |rest| then Some(rest)
      else
        var more := Unframed(rest[n..]);
        if more.None? then None else Some(rest[..n] + more.value)
  }

  function Demux(raw: seq<Byte>): seq<Byte> {
    if Unframed(raw).None? then raw else Unframed(raw).value
  }

  /** With rest still to be read, behind what b holds already. */
  predicate Reads(whole: Option<seq<Byte>>, rest: seq<Byte>, b: seq<Byte>) {
    var more := Unframed(rest);
    whole == if more.None? then None else Some(b + more.value)
  }

  lemma ReadsOn(whole: Option<seq<Byte>>, rest: seq<Byte>, b: seq<Byte>, n: nat)
    requires |rest| >= 8 && Reads(whole, rest, b) && Headed(rest) && n == Length32(rest[4..8])
    ensures 8 + n <= |rest| ==> Reads(whole, rest[8 + n..], b + rest[8..8 + n])
    ensures 8 + n > |rest| ==> whole == Some(b + rest[8..])
  {
    if 8 + n <= |rest| {
      var chunk, more := rest[8..8 + n], Unframed(rest[8 + n..]);
      assert rest[8..][n..] == rest[8 + n..] && rest[8..][..n] == chunk;
      if more.Some? { assert b + (chunk + more.value) == b + chunk + more.value; }
    }
  }

  predicate HeaderAt(raw: seq<Byte>, i: nat)
    requires i + 8 <= |raw|
  {
    raw[i] <= 2 && raw[i + 1] == 0 && raw[i + 2] == 0 && raw[i + 3] == 0
  }

  /** One turn of the loop, at position i. */
  lemma ReadsAt(whole: Option<seq<Byte>>, raw: seq<Byte>, i: nat, b: seq<Byte>, n: nat)
    requires i + 8 <= |raw| && Reads(whole, raw[i..], b) && n == Length32(raw[i + 4..i + 8])
    ensures !HeaderAt(raw, i) ==> whole.None?
    ensures HeaderAt(raw, i) && i + 8 + n > |raw| ==> whole == Some(b + raw[i + 8..])
    ensures HeaderAt(raw, i) && i + 8 + n <= |raw| ==> Reads(whole, raw[i + 8 + n..], b + raw[i + 8..i + 8 + n])
  {
    var rest := raw[i..];
    assert rest[4..8] == raw[i + 4..i + 8] && rest[8..] == raw[i + 8..];
    if HeaderAt(raw, i) {
      ReadsOn(whole, rest, b, n);
      if i + 8 + n <= |raw| {
        assert rest[8..8 + n] == raw[i + 8..i + 8 + n] && rest[8 + n..] == raw[i + 8 + n..];
      }
    } else {
      assert !Headed(rest);
    }
  }

  method DemuxDockerLog(raw: seq<Byte>) returns (out: seq<Byte>)
    ensures out == Demux(raw)
  {
    out := [];
    var i := 0;
    ghost var whole := Unframed(raw);
    assert raw[0..] == raw;
    assert whole.Some? ==> out + whole.value == whole.value;
    while i + 8 <= |raw|
      invariant 0 <= i <= |raw| && Reads(whole, raw[i..], out)
    {
      var n := Length32(raw[i + 4..i + 8]);
      ReadsAt(whole, raw, i, out, n);
      if !HeaderAt(raw, i) { return raw; }
      i := i + 8;
      if i + n > |raw| {
        out := out + raw[i..];
        return;
      }
      out := out + raw[i..i + n];
      i := i + n;
    }
  }

  /** How much of the payloads the first k bytes of the stream hold: a header cut short holds nothing, a
      payload cut short what there is of it. */
  function Reached(frames: seq<Frame>, k: nat): seq<Byte> {
    if frames == [] || k < 8 then []
    else
      var p := frames[0].payload;
      if k - 8 < |p| then p[..k - 8] else p + Reached(frames[1..], k - 8 - |p|)
  }

  /** The first eight bytes are a header, and payload and further frames follow. */
  lemma FirstFrame(f: Frame, rest: seq<Byte>, raw: seq<Byte>, k: nat)
    requires f.Valid() && 8 <= k <= 8 + |f.payload| + |rest| && raw == (Encoded(f) + rest)[..k]
    ensures |raw| == k && Headed(raw) && raw[4..8] == Bytes32(|f.payload|) && raw[8..] == (f.payload + rest)[..k - 8]
  {
    var size := Bytes32(|f.payload|);
    var all := Encoded(f) + rest;
    assert all == [f.stream, 0, 0, 0] + size + (f.payload + rest);
    assert all[4..8] == size && all[8..] == f.payload + rest;
    assert raw[4..8] == all[4..8] && raw[8..] == all[8..][..k - 8];
  }

  /** A stream cut off anywhere yields exactly the payload bytes that arrived. */
  lemma {:induction false} CutStream(frames: seq<Frame>, k: nat)
    requires AllValid(frames) && k <= |Encode(frames)|
    ensures Demux(Encode(frames)[..k]) == Reached(frames, k) && Unframed(Encode(frames)[..k]).Some?
    decreases |frames|
  {
    if frames != [] && k >= 8 {
      var f, rest := frames[0], Encode(frames[1..]);
      var raw := Encode(frames)[..k];
      FirstFrame(f, rest, raw, k);
      if k - 8 < |f.payload| {
        assert raw[8..] == f.payload[..k - 8];
      } else {
        var k' := k - 8 - |f.payload|;
        CutStream(frames[1..], k');
        assert raw[8..][..|f.payload|] == f.payload;
        assert raw[8..][|f.payload|..] == rest[..k'];
      }
    }
  }

  lemma {:induction false} ReachedIsPrefix(frames: seq<Frame>, k: nat)
    requires AllValid(frames)
    ensures Reached(frames, k) <= Payloads(frames)
    ensures k == |Encode(frames)| ==> Reached(frames, k) == Payloads(frames)
    decreases |frames|
  {
    if frames != [] && k >= 8 && k - 8 >= |frames[0].payload| {
      ReachedIsPrefix(frames[1..], k - 8 - |frames[0].payload|);
    }
  }

  /** Demultiplexing undoes framing, and never shows anything that was not written, however the stream was
      cut off. */
  lemma DemuxUndoesEncode(frames: seq<Frame>, k: nat)
    requires AllValid(frames) && k <= |Encode(frames)|
    ensures Demux(Encode(frames)[..k]) <= Payloads(frames)
    ensures Demux(Encode(frames)) == Payloads(frames)
  {
    CutStream(frames, k);
    ReachedIsPrefix(frames, k);
    CutStream(frames, |Encode(frames)|);
    ReachedIsPrefix(frames, |Encode(frames)|);
    assert Encode(frames)[..|Encode(frames)|] == Encode(frames);
  }

  /** A log that is not framed comes back as it is only if there is enough of it to tell: text shorter than
      a frame header is lost. */
  lemma PlainTextKeptExactly(raw: seq<Byte>)
    requires |raw| >= 8 ==> !Headed(raw)
    ensures Demux(raw) == raw <==> |raw| >= 8 || raw == []
  {
  }
}
