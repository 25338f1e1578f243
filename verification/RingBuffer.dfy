/**
 * The log buffer of ringbuffer/ring_buffer.go: an array of twice the advertised size,
 * written left to right and compacted only when it is more than 17/10 full.
 *
 * `Ring` is the value of the structure; the functions on it are what one call does.
 * `History` adds what an observer remembers (the bytes accepted, the bytes moved), which
 * the code does not store. The class `RingBuffer` is the code, proved to follow `Ring`.
 */
module RingBuffers {
  import opened Bytes

  const FILLING_RATE := 17

  datatype Ring = Ring(buf: seq<byte>, size: nat, pos: nat) {
    ghost predicate Valid() {
      |buf| == 2 * size && pos <= 2 * size
    }

    /** What `Bytes` shows to a reader. */
    function Visible(): seq<byte>
      requires Valid()
    {
      buf[Max(0, pos - size)..pos]
    }

    predicate Compacts() {
      pos > size * FILLING_RATE / 10
    }

    /** The buffer after the compaction check at the start of a write. */
    function Compacted(): (r: Ring)
      requires Valid()
      ensures r.Valid() && r.size == size
    {
      if Compacts() then Ring(buf[pos - size..pos] + buf[size..], size, size) else this
    }

    /** How many of `n` offered bytes are taken. */
    function Room(n: nat): (k: nat)
      requires Valid()
    {
      Min(n, 2 * size - Compacted().pos)
    }

    function Written(p: seq<byte>): (r: Ring)
      requires Valid()
      ensures r.Valid() && r.size == size
    {
      if p == [] then this else
        var c := Compacted();
        var n := Room(|p|);
        Ring(c.buf[..c.pos] + p[..n] + c.buf[c.pos + n..], size, c.pos + n)
    }
  }

  /** What a write does, in numbers: it compacts above 17/10 of the size, and takes what then fits. */
  lemma WrittenMeans(r: Ring, p: seq<byte>)
    requires r.Valid() && p != []
    ensures var from := if 10 * r.pos > 17 * r.size then r.size else r.pos;
            var n := if |p| <= 2 * r.size - from then |p| else 2 * r.size - from;
            && r.Room(|p|) == n && r.Written(p).pos == from + n
            && r.Written(p).buf[from..from + n] == p[..n]
            && (from == r.pos ==> r.Written(p).buf[..from] == r.buf[..from])
            && (from != r.pos ==> r.Written(p).buf[..from] == r.buf[r.pos - r.size..r.pos])
  {
    assert r.Compacts() <==> 10 * r.pos > 17 * r.size;
  }

  datatype Op = Write(p: seq<byte>) | Reset

  /** A ring, the bytes it accepted since the last reset, and running totals since `New`. */
  datatype History = History(ring: Ring, accepted: seq<byte>, total: nat, moved: nat)

  function Begin(buf: seq<byte>, size: nat): History {
    History(Ring(buf, size, 0), [], 0, 0)
  }

  function Apply(h: History, op: Op): History
    requires h.ring.Valid()
  {
    match op
    case Reset => h.(ring := h.ring.(pos := 0), accepted := [])
    case Write(p) =>
      if p == [] then h else
        var n := h.ring.Room(|p|);
        History(h.ring.Written(p), h.accepted + p[..n], h.total + n,
                h.moved + if h.ring.Compacts() then h.ring.size else 0)
  }

  /** The history after performing `ops` in order on a new buffer. */
  function Run(buf: seq<byte>, size: nat, ops: seq<Op>): (h: History)
    requires |buf| == 2 * size
    ensures h.ring.Valid() && h.ring.size == size
  {
    if ops == [] then Begin(buf, size) else Apply(Run(buf, size, ops[..|ops| - 1]), ops[|ops| - 1])
  }

  /** What the array holds is a suffix of what was accepted, long enough to answer a read. */
  ghost predicate Holds(r: Ring, accepted: seq<byte>) {
    && r.Valid()
    && Min(r.size, |accepted|) <= r.pos <= |accepted|
    && r.buf[..r.pos] == accepted[|accepted| - r.pos..]
  }

  /** The bytes moved so far are covered by bytes accepted, with credit for a full buffer. */
  ghost predicate Paid(r: Ring, moved: nat, total: nat) {
    7 * moved + 10 * Max(0, r.pos - r.size) <= 10 * total
  }

  ghost predicate Tracks(h: History) {
    Holds(h.ring, h.accepted) && Paid(h.ring, h.moved, h.total)
  }

  lemma ApplyTracks(h: History, op: Op)
    requires Tracks(h)
    ensures Tracks(Apply(h, op))
  {
    if op.Write? && op.p != [] {
      CompactionHolds(h.ring, h.accepted);
      AppendHolds(h.ring, h.accepted, op.p);
    }
  }

  lemma CompactionHolds(r: Ring, accepted: seq<byte>)
    requires Holds(r, accepted)
    ensures Holds(r.Compacted(), accepted)
  {
    var c := r.Compacted();
    if r.Compacts() {
      assert c.buf[..c.pos] == r.buf[..r.pos][r.pos - r.size..];
    }
  }

  lemma AppendHolds(r: Ring, accepted: seq<byte>, p: seq<byte>)
    requires r.Valid() && Holds(r.Compacted(), accepted) && p != []
    ensures Holds(r.Written(p), accepted + p[..r.Room(|p|)])
  {
    var c, w, q := r.Compacted(), r.Written(p), p[..r.Room(|p|)];
    assert w.buf[..w.pos] == c.buf[..c.pos] + q;
    assert (accepted + q)[|accepted + q| - w.pos..] == accepted[|accepted| - c.pos..] + q;
  }

  /**
   * After any sequence of writes and resets a reader sees exactly the last `size` of the
   * bytes accepted since the last reset, and the bytes moved by compaction are at most
   * 10/7 of the bytes accepted.
   */
  lemma ShowsTheLastBytes(buf: seq<byte>, size: nat, ops: seq<Op>)
    requires |buf| == 2 * size
    ensures var h := Run(buf, size, ops);
            && h.ring.Visible() == LastN(h.accepted, size)
            && 7 * h.moved <= 10 * h.total
  {
    RunTracks(buf, size, ops);
    var r := Run(buf, size, ops).ring;
    assert r.Visible() == r.buf[..r.pos][Max(0, r.pos - r.size)..];
  }

  lemma {:induction false} RunTracks(buf: seq<byte>, size: nat, ops: seq<Op>)
    requires |buf| == 2 * size
    ensures Tracks(Run(buf, size, ops))
  {
    if ops != [] {
      RunTracks(buf, size, ops[..|ops| - 1]);
      ApplyTracks(Run(buf, size, ops[..|ops| - 1]), ops[|ops| - 1]);
    }
  }

  class RingBuffer {
    const buf: array<byte>
    const size: nat
    var pos: nat

    ghost predicate Valid()
      reads this
    {
      buf.Length == 2 * size && pos <= 2 * size
    }

    ghost function State(): (r: Ring)
      reads this, buf
    {
      Ring(buf[..], size, pos)
    }

    constructor (size: nat)
      ensures Valid() && fresh(buf)
      ensures State() == Begin(buf[..], size).ring
    {
      this.size := size;
      this.buf := new byte[size * 2];
      this.pos := 0;
    }

    /**
     * Takes what fits and reports how much. With any room at all a write makes progress,
     * and a write of at most `2*size - size*17/10` bytes is always taken whole.
     */
    method Write(p: seq<byte>) returns (n: nat)
      requires Valid()
      modifies this, buf
      ensures Valid()
      ensures State() == old(State()).Written(p)
      ensures p != [] ==> n == old(State()).Room(|p|)
      ensures |p| <= 2 * size - size * FILLING_RATE / 10 ==> n == |p|
      ensures p != [] && size > 0 ==> n > 0
    {
      if p == [] {
        return 0;
      }
      if pos > size * FILLING_RATE / 10 {
        Compact();
      }
      n := Min(|p|, buf.Length - pos);
      Append(p[..n]);
    }

    /** The overlapping copy of the last `size` bytes to the front. */
    method Compact()
      requires Valid() && State().Compacts()
      modifies this, buf
      ensures Valid() && State() == old(State()).Compacted()
    {
      var s := pos - size;
      forall i | 0 <= i < size {
        buf[i] := buf[s + i];
      }
      pos := size;
      assert buf[..] == old(buf[..])[s..s + size] + old(buf[..])[size..];
    }

    method Append(p: seq<byte>)
      requires Valid() && pos + |p| <= 2 * size
      modifies this, buf
      ensures Valid() && pos == old(pos) + |p|
      ensures buf[..] == old(buf[..pos]) + p + old(buf[pos + |p|..])
    {
      forall i | 0 <= i < |p| {
        buf[pos + i] := p[i];
      }
      pos := pos + |p|;
    }

    method Bytes() returns (b: array<byte>)
      requires Valid()
      ensures fresh(b) && b[..] == State().Visible()
    {
      var lastIndex := pos;
      if lastIndex == 0 {
        b := new byte[0];
        return;
      }
      var firstIndex := lastIndex - size;
      if firstIndex < 0 {
        firstIndex := 0;
      }
      b := new byte[lastIndex - firstIndex];
      forall i | 0 <= i < lastIndex - firstIndex {
        b[i] := buf[firstIndex + i];
      }
    }

    /** Nothing stays visible, and the next write has the whole buffer. */
    method Reset()
      requires Valid()
      modifies this`pos
      ensures Valid() && State() == old(State()).(pos := 0)
      ensures State().Visible() == []
      ensures forall n :: 0 <= n <= 2 * size ==> State().Room(n) == n
    {
      pos := 0;
    }
  }
}
