/** The byte copies into a slot: one buffer (writeToRegion) or several slices (writevToRegion). */
module ShmCopy {
  import opened Words

  /** sizeof(SlotHeader): the state word and the length word in front of the bytes. */
  const SLOT_HEADER := 8

  /** The bytes of several slices one after the other. */
  function Gathered(slices: seq<Bytes>): (r: Bytes) {
    if slices == [] then [] else slices[0] + Gathered(slices[1..])
  }

  lemma {:induction false} GatheredSnoc(slices: seq<Bytes>, last: Bytes)
    ensures Gathered(slices + [last]) == Gathered(slices) + last
  {
    if slices == [] {
      assert [last][1..] == [];
    } else {
      assert (slices + [last])[1..] == slices[1..] + [last];
      GatheredSnoc(slices[1..], last);
    }
  }

  /** Taking more slices only extends the bytes taken so far. */
  lemma {:induction false} GatheredPrefix(slices: seq<Bytes>, n: nat)
    requires n <= |slices|
    ensures |Gathered(slices[..n])| <= |Gathered(slices)| && Gathered(slices[..n]) <= Gathered(slices)
    decreases |slices| - n
  {
    if n == |slices| {
      assert slices[..n] == slices;
    } else {
      assert slices[..n + 1] == slices[..n] + [slices[n]];
      GatheredSnoc(slices[..n], slices[n]);
      GatheredPrefix(slices, n + 1);
    }
  }

  /** `mem` with `data` written over it from position `at`. */
  function Overwrite(mem: Bytes, at: nat, data: Bytes): (r: Bytes)
    requires at + |data| <= |mem|
    ensures |r| == |mem|
  {
    mem[..at] + data + mem[at + |data|..]
  }

  lemma OverwriteTwice(mem: Bytes, at: nat, a: Bytes, b: Bytes)
    requires at + |a| + |b| <= |mem|
    ensures Overwrite(Overwrite(mem, at, a), at + |a|, b) == Overwrite(mem, at, a + b)
  {
  }

  /** memcpy into the segment. */
  method CopyIn(mem: array<uint8>, at: nat, data: Bytes)
    requires at + |data| <= mem.Length
    modifies mem
    ensures mem[..] == Overwrite(old(mem[..]), at, data)
  {
    ghost var was := mem[..];
    for i := 0 to |data|
      invariant mem[..] == Overwrite(was, at, data[..i])
    {
      mem[at + i] := data[i];
      assert data[..i + 1] == data[..i] + [data[i]];
    }
    assert data[..|data|] == data;
  }

  /** The slot at `base` of `ssize` bytes lies inside the segment. */
  predicate SlotInside(length: nat, base: nat, ssize: nat) {
    base + ssize <= length
  }

  /** What either send leaves in the segment's bytes. */
  function AfterCopy(mem: Bytes, base: nat, ssize: nat, msg: Bytes): (r: Bytes)
    requires SlotInside(|mem|, base, ssize)
  {
    if |msg| + SLOT_HEADER > ssize then mem else Overwrite(mem, base + SLOT_HEADER, msg)
  }

  /** Byte by byte: a message that fits starts right behind the eight bytes of the slot's header, and nothing else changes. */
  lemma CopyMeans(mem: Bytes, base: nat, ssize: nat, msg: Bytes, i: nat)
    requires SlotInside(|mem|, base, ssize) && i < |mem|
    ensures |AfterCopy(mem, base, ssize, msg)| == |mem|
    ensures AfterCopy(mem, base, ssize, msg)[i] ==
      if |msg| + 8 <= ssize && base + 8 <= i < base + 8 + |msg| then msg[i - base - 8] else mem[i]
  {
  }

  method WriteBuffer(mem: array<uint8>, base: nat, ssize: nat, data: Bytes) returns (ok: bool)
    requires SlotInside(mem.Length, base, ssize)
    modifies mem
    ensures ok <==> |data| + SLOT_HEADER <= ssize
    ensures mem[..] == AfterCopy(old(mem[..]), base, ssize, data)
  {
    if |data| + SLOT_HEADER > ssize { return false; }
    CopyIn(mem, base + SLOT_HEADER, data);
    return true;
  }

  /** Gathering slices has exactly the effect of WriteBuffer on their concatenation. */
  method WriteSlices(mem: array<uint8>, base: nat, ssize: nat, slices: seq<Bytes>) returns (ok: bool)
    requires SlotInside(mem.Length, base, ssize)
    modifies mem
    ensures ok <==> |Gathered(slices)| + SLOT_HEADER <= ssize
    ensures mem[..] == AfterCopy(old(mem[..]), base, ssize, Gathered(slices))
  {
    var total := TotalLength(slices);
    if total + SLOT_HEADER > ssize { return false; }
    CopySlices(mem, base + SLOT_HEADER, slices);
    return true;
  }

  method TotalLength(slices: seq<Bytes>) returns (total: nat)
    ensures total == |Gathered(slices)|
  {
    total := 0;
    for i := 0 to |slices|
      invariant total == |Gathered(slices[..i])|
    {
      assert slices[..i + 1] == slices[..i] + [slices[i]];
      GatheredSnoc(slices[..i], slices[i]);
      total := total + |slices[i]|;
    }
    assert slices[..|slices|] == slices;
  }

  method CopySlices(mem: array<uint8>, dst: nat, slices: seq<Bytes>)
    requires dst + |Gathered(slices)| <= mem.Length
    modifies mem
    ensures mem[..] == Overwrite(old(mem[..]), dst, Gathered(slices))
  {
    ghost var was := mem[..];
    assert Overwrite(was, dst, []) == was;
    var off := 0;
    for i := 0 to |slices|
      invariant off == |Gathered(slices[..i])| <= |Gathered(slices)|
      invariant mem[..] == Overwrite(was, dst, Gathered(slices[..i]))
    {
      NextSlice(was, dst, slices, i);
      if |slices[i]| > 0 {
        CopyIn(mem, dst + off, slices[i]);
        off := off + |slices[i]|;
      }
    }
    assert slices[..|slices|] == slices;
  }

  lemma NextSlice(was: Bytes, dst: nat, slices: seq<Bytes>, i: nat)
    requires i < |slices| && dst + |Gathered(slices)| <= |was|
    ensures var g, h := Gathered(slices[..i]), Gathered(slices[..i + 1]);
            |g| + |slices[i]| == |h| <= |Gathered(slices)| &&
            Overwrite(Overwrite(was, dst, g), dst + |g|, slices[i]) == Overwrite(was, dst, h) &&
            (slices[i] == [] ==> g == h)
  {
    assert slices[..i + 1] == slices[..i] + [slices[i]];
    GatheredSnoc(slices[..i], slices[i]);
    GatheredPrefix(slices, i + 1);
    OverwriteTwice(was, dst, Gathered(slices[..i]), slices[i]);
  }
}
