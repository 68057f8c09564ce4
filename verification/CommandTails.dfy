/** `commandTail`: the last bytes of a command's output, kept in a file used as a ring. */
module CommandTails {
  import opened Bytes

  const MAX_LOG: nat := 0x100000

  /** The last `MAX_LOG` bytes. */
  function Tail(s: Bytes): Bytes {
    if |s| <= MAX_LOG then s else s[|s| - MAX_LOG..]
  }

  /** It is the end of the bytes, and holds all of them up to 1048576. */
  lemma TailExactly(s: Bytes)
    ensures |Tail(s)| == (if |s| <= 1048576 then |s| else 1048576) && Tail(s) == s[|s| - |Tail(s)|..]
  {
  }

  lemma TailOfTail(a: Bytes, b: Bytes)
    ensures Tail(Tail(a) + b) == Tail(a + b)
  {
  }

  lemma TailCovers(a: Bytes, p: Bytes)
    requires |p| >= MAX_LOG
    ensures Tail(a + p) == p[|p| - MAX_LOG..]
  {
  }

  lemma TakeFirst(a: Bytes, part: Bytes, rest: Bytes)
    requires part <= rest
    ensures a + part + rest[|part|..] == a + rest
  {
  }

  /** The bytes of a ring, oldest first. */
  function RingBytes(file: Bytes, pos: nat, size: nat): Bytes
    requires |file| == MAX_LOG && pos < MAX_LOG && size <= MAX_LOG
  {
    if size == MAX_LOG then file[pos..] + file[..pos] else file[..size]
  }

  /** Overwriting at the write position, without passing the end of the file. */
  lemma WriteInRing(before: Bytes, after: Bytes, pos: nat, size: nat, part: Bytes)
    requires |before| == |after| == MAX_LOG && pos < MAX_LOG && size <= MAX_LOG
    requires size < MAX_LOG ==> pos == size
    requires 0 < |part| <= MAX_LOG - pos
    requires after == before[..pos] + part + before[pos + |part|..]
    ensures var pos', size' := (pos + |part|) % MAX_LOG, if size + |part| < MAX_LOG then size + |part| else MAX_LOG;
            && (size' < MAX_LOG ==> pos' == size')
            && RingBytes(after, pos', size') == Tail(RingBytes(before, pos, size) + part)
  {
    var old' := RingBytes(before, pos, size);
    if size == MAX_LOG {
      assert Tail(old' + part) == (before[pos..] + before[..pos] + part)[|part|..];
      assert Tail(old' + part) == before[pos + |part|..] + before[..pos] + part;
      if pos + |part| < MAX_LOG {
        assert after[pos + |part|..] == before[pos + |part|..];
        assert after[..pos + |part|] == before[..pos] + part;
      } else {
        assert after == before[..pos] + part;
      }
    } else {
      assert after[..pos + |part|] == before[..pos] + part;
    }
  }

  class CommandTail {
    var file: array<byte>
    var pos: nat
    var size: nat
    /** Everything written since the tail was created. */
    ghost var written: Bytes
    /** How many reads and writes of the file have failed. */
    ghost var faults: nat
    /** Whether the file never fails. */
    const reliable: bool

    ghost predicate Valid()
      reads this, file
    {
      && file.Length == MAX_LOG && pos < MAX_LOG && size <= MAX_LOG
      && (size < MAX_LOG ==> pos == size)
      && RingBytes(file[..], pos, size) == Tail(written)
    }

    constructor (reliable: bool)
      ensures Valid() && fresh(file) && written == [] && this.reliable == reliable
    {
      this.reliable := reliable;
      file := new byte[MAX_LOG];
      pos, size, written, faults := 0, 0, [], 0;
    }

    /** `WriteAt`; on failure the file may hold anything. */
    method WriteAt(part: Bytes, off: nat) returns (ok: bool)
      requires off + |part| <= file.Length
      modifies file, this`faults
      ensures faults == (if ok then old(faults) else old(faults) + 1) && (reliable ==> ok)
      ensures ok ==> file[..] == old(file[..off]) + part + old(file[off + |part|..])
    {
      forall i | 0 <= i < |part| {
        file[off + i] := part[i];
      }
      ok := Attempt();
    }

    method Attempt() returns (ok: bool)
      modifies this`faults
      ensures faults == (if ok then old(faults) else old(faults) + 1) && (reliable ==> ok)
    {
      ok := *;
      ok := ok || reliable;
      if !ok {
        faults := faults + 1;
      }
    }

    /** One step of the copying loop: the part up to the end of the file. */
    method WritePart(part: Bytes) returns (ok: bool)
      requires Valid() && 0 < |part| <= MAX_LOG - pos
      modifies this, file
      ensures file == old(file) && faults == (if ok then old(faults) else old(faults) + 1) && (reliable ==> ok)
      ensures ok ==> Valid() && written == old(written) + part
      ensures ok ==> pos == (old(pos) + |part|) % MAX_LOG
    {
      hide Tail, RingBytes;
      ghost var before := file[..];
      ok := WriteAt(part, pos);
      if !ok {
        return;
      }
      assert before[..pos] == old(file[..pos]) && before[pos + |part|..] == old(file[pos + |part|..]);
      WriteInRing(before, file[..], pos, size, part);
      TailOfTail(written, part);
      pos := (pos + |part|) % MAX_LOG;
      if size + |part| < MAX_LOG {
        size := size + |part|;
      } else {
        size := MAX_LOG;
      }
      written := written + part;
    }

    /** The branch for output that fills the ring by itself. */
    method WriteOversized(p: Bytes) returns (ok: bool)
      requires Valid() && |p| >= MAX_LOG
      modifies this, file
      ensures file == old(file) && faults == (if ok then old(faults) else old(faults) + 1) && (reliable ==> ok)
      ensures ok ==> Valid() && written == old(written) + p
    {
      var kept := p[|p| - MAX_LOG..];
      ok := WriteAt(kept, 0);
      if !ok {
        return;
      }
      TailCovers(written, p);
      assert file[..] == kept;
      pos, size, written := 0, MAX_LOG, written + p;
    }

    /**
     * `Write`: after success the ring holds the tail of everything written, and only a write
     * of the file that fails prevents it.
     */
    method Write(p: Bytes) returns (n: nat, ok: bool)
      requires Valid()
      modifies this, file
      ensures file == old(file) && faults == (if ok then old(faults) else old(faults) + 1) && (reliable ==> ok)
      ensures ok ==> Valid() && n == |p| && written == old(written) + p
      ensures !ok ==> n == 0
    {
      hide Tail, RingBytes;
      if |p| >= MAX_LOG {
        ok := WriteOversized(p);
        return if ok then |p| else 0, ok;
      }
      var rest := p;
      assert written + p == old(written) + p;
      while |rest| > 0
        invariant Valid() && file == old(file) && faults == old(faults)
        invariant written + rest == old(written) + p
        decreases |rest|
      {
        var part := if |rest| > MAX_LOG - pos then rest[..MAX_LOG - pos] else rest;
        ghost var before := written;
        ok := WritePart(part);
        if !ok {
          return 0, false;
        }
        TakeFirst(before, part, rest);
        rest := rest[|part|..];
      }
      assert written + [] == written;
      return |p|, true;
    }

    /** `Bytes`: the tail, read in at most two pieces, unless one of the reads fails. */
    method Bytes() returns (ok: bool, b: Bytes)
      requires Valid()
      modifies this`faults
      ensures Valid() && faults == (if ok then old(faults) else old(faults) + 1) && (reliable ==> ok)
      ensures ok ==> b == Tail(written)
    {
      var start := if size == MAX_LOG then pos else 0;
      var first := if size > MAX_LOG - start then MAX_LOG - start else size;
      b := file[start..start + first];
      ok := Attempt();
      if !ok {
        return;
      }
      if first < size {
        b := b + file[..size - first];
        ok := Attempt();
      }
      assert b == RingBytes(file[..], pos, size);
    }
  }

  /**
   * Any sequence of writes of any sizes, and a reading. If the file fails at none of them,
   * it gives exactly the tail of everything written; otherwise it stops there.
   */
  method WriteAll(t: CommandTail, writes: seq<Bytes>) returns (ok: bool, b: Bytes)
    requires t.Valid()
    modifies t, t.file
    ensures t.faults == (if ok then old(t.faults) else old(t.faults) + 1) && (t.reliable ==> ok)
    ensures ok ==> t.Valid() && b == Tail(old(t.written) + Concat(writes))
    ensures ok ==> var all := old(t.written) + Concat(writes);
              |b| == (if |all| <= 1048576 then |all| else 1048576) && b == all[|all| - |b|..]
  {
    hide Tail, RingBytes, Concat;
    ghost var start := t.written;
    NoWrites(start, writes);
    for i := 0 to |writes|
      invariant t.Valid() && t.file == old(t.file) && t.faults == old(t.faults)
      invariant t.written == start + Concat(writes[..i])
    {
      var n, done := t.Write(writes[i]);
      if !done {
        return false, [];
      }
      NextWrite(start, writes, i);
    }
    assert writes[..|writes|] == writes;
    ok, b := t.Bytes();
    TailExactly(start + Concat(writes));
  }

  lemma NoWrites(start: Bytes, writes: seq<Bytes>)
    ensures start + Concat(writes[..0]) == start
  {
  }

  lemma NextWrite(start: Bytes, writes: seq<Bytes>, i: nat)
    requires i < |writes|
    ensures start + Concat(writes[..i]) + writes[i] == start + Concat(writes[..i + 1])
  {
    assert writes[..i + 1][..i] == writes[..i];
  }
}
