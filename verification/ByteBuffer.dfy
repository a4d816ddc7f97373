/** byte_buffer.go: a buffer with a save area, a read area and a write area, in this order.
    `data` is the backing array (its length is the capacity) and the slice over it always
    ends at `wi`. */
module ByteBuffers {
  import opened Bytes
  import opened Transports

  // A slice without the k bytes at i.
  ghost function Without(c: seq<byte>, i: nat, k: nat): (r: seq<byte>)
    requires i + k <= |c|
    ensures |r| == |c| - k
  {
    c[..i] + c[i + k..]
  }

  // copy(a[to:], a[to+k:end]): cut k bytes at `to` by moving the rest of [0, end) down.
  method MoveDown(a: array<byte>, to: nat, k: nat, end: nat, ghost content: seq<byte>)
    requires to + k <= end <= a.Length && a[..end] == content
    modifies a
    ensures a[..end - k] == Without(content, to, k)
  {
    for i := to to end - k
      invariant forall j :: 0 <= j < to ==> a[j] == content[j]
      invariant forall j :: to <= j < i ==> a[j] == content[j + k]
      invariant forall j :: i <= j < end ==> a[j] == content[j]
    {
      a[i] := a[i + k];
    }
  }

  // A slice c loses k bytes at i: the stretch [b, e) behind the cut moves down ...
  lemma CutBehind(c: seq<byte>, i: nat, k: nat, b: nat, e: nat)
    requires i + k <= b <= e <= |c|
    ensures Without(c, i, k)[b - k..e - k] == c[b..e]
  {
    var rest, o := c[i + k..], i + k;
    assert Without(c, i, k)[b - k..e - k] == rest[b - o..e - o];
    assert rest[b - o..e - o] == c[b..e];
  }

  // ... and the area [0, s) it lies in loses them.
  lemma CutInside(c: seq<byte>, i: nat, k: nat, s: nat)
    requires i + k <= s <= |c|
    ensures Without(c, i, k)[..s - k] == c[..s][..i] + c[..s][i + k..]
  {
    assert Without(c, i, k)[..s - k] == c[..i] + c[i + k..s];
    assert c[..s][..i] == c[..i] && c[..s][i + k..] == c[i + k..s];
  }

  lemma ToEnd(c: seq<byte>, i: nat)
    requires i <= |c|
    ensures c[i..] == c[i..|c|]
  {}

  // Cutting the first k bytes of the stretch [i, r).
  lemma CutFront(c: seq<byte>, i: nat, k: nat, r: nat)
    requires i + k <= r <= |c|
    ensures var c' := Without(c, i, k);
      c'[..i] == c[..i] && c'[i..r - k] == c[i..r][k..] && c'[r - k..] == c[r..]
  {
    CutBehind(c, i, k, i + k, r);
    CutBehind(c, i, k, r, |c|);
    assert c[i..r][k..] == c[i + k..r];
    ToEnd(Without(c, i, k), r - k);
    ToEnd(c, r);
  }

  // Cutting k bytes at i out of the area [0, s), in front of [s, r) and [r, |c|).
  lemma CutAreas(c: seq<byte>, i: nat, k: nat, s: nat, r: nat)
    requires i + k <= s <= r <= |c|
    ensures var c' := Without(c, i, k);
      && c'[..s - k] == c[..s][..i] + c[..s][i + k..]
      && c'[s - k..r - k] == c[s..r] && c'[r - k..] == c[r..]
  {
    hide Without;
    CutInside(c, i, k, s);
    CutBehind(c, i, k, s, r);
    CutBehind(c, i, k, r, |c|);
    ToEnd(Without(c, i, k), r - k);
    ToEnd(c, r);
  }

  lemma PrefixGrows(base: seq<byte>, area: seq<byte>, k: nat, n: nat)
    requires k + n <= |area|
    ensures base + area[..k] + area[k..][..n] == base + area[..k + n]
  {
    assert area[..k] + area[k..][..n] == area[..k + n];
  }

  lemma Whole(area: seq<byte>)
    ensures area[..|area|] == area && area[..0] == []
  {}

  // The slice over d grows to `end`; its first bytes are those of c and then `bytes`.
  lemma Grown(d: seq<byte>, c: seq<byte>, bytes: seq<byte>, end: nat, si: nat, ri: nat)
    requires si <= ri <= |c| <= end <= |d| && c + bytes <= d
    ensures d[..end][..si] == c[..si] && d[..end][si..ri] == c[si..ri] && c[ri..] <= d[..end][ri..]
    ensures end <= |c| + |bytes| ==> d[..end][ri..] == c[ri..] + bytes[..end - |c|]
    ensures |c| + |bytes| < end ==> c[ri..] + bytes <= d[..end][ri..]
  {
    assert d[..|c|] == c;
  }

  lemma Shortened(c: seq<byte>, si: nat, ri: nat, end: nat)
    requires si <= ri <= end <= |c|
    ensures c[..end][..si] == c[..si] && c[..end][si..ri] == c[si..ri] && c[..end][ri..] == c[ri..][..end - ri]
  {}

  // A stretch [i, j) takes the first k bytes of the next one, [j, e).
  lemma Halved(c: seq<byte>, i: nat, j: nat, e: nat, k: nat)
    requires i <= j <= j + k <= e <= |c|
    ensures c[i..j + k] == c[i..j] + c[j..e][..k] && c[j + k..e] == c[j..e][k..]
    ensures c[..j + k] == c[..j] + c[j..e][..k] && c[j..][..k] == c[j..e][..k] && c[j + k..] == c[j..][k..]
  {}

  lemma Longer(c: seq<byte>, bytes: seq<byte>, si: nat, ri: nat)
    requires si <= ri <= |c|
    ensures (c + bytes)[..si] == c[..si] && (c + bytes)[si..ri] == c[si..ri] && (c + bytes)[ri..] == c[ri..] + bytes
  {}

  lemma Widened(c: seq<byte>, d: seq<byte>, si: nat, ri: nat)
    requires si <= ri <= |c| && c <= d
    ensures d[..si] == c[..si] && d[si..ri] == c[si..ri] && c[ri..] <= d[ri..]
  {
    assert d[..|c|] == c;
  }

  lemma FrontOf(c: seq<byte>, i: nat, j: nat, k: nat)
    requires i + k <= j <= |c|
    ensures c[i..i + k] == c[i..j][..k] == c[i..][..k]
  {}

  lemma InPrefix(c: seq<byte>, s: nat, i: nat, j: nat)
    requires i <= j <= s <= |c|
    ensures c[..s][i..j] == c[i..j]
  {}

  lemma Behind(c: seq<byte>, i: nat, j: nat, k: nat)
    requires i + k <= j <= |c|
    ensures c[i + k..j] == c[i..j][k..]
  {}

  class ByteBuffer {
    var si: nat              // end of the save area
    var ri: nat              // end of the read area
    var wi: nat              // end of the write area
    var data: array<byte>
    ghost var content: seq<byte>   // the slice: the first wi bytes of data

    ghost predicate Intact()
      reads this`wi, this`data, this`content, data
      ensures Intact() ==> |content| == wi <= data.Length
    {
      wi <= data.Length && data[..wi] == content
    }

    ghost predicate Valid()
      reads this, data
    {
      si <= ri <= wi && Intact()
    }

    ghost function Saved(): seq<byte>
      requires Valid()
      reads this, data
    {
      content[..si]
    }

    ghost function Readable(): seq<byte>
      requires Valid()
      reads this, data
    {
      content[si..ri]
    }

    ghost function Written(): seq<byte>
      requires Valid()
      reads this, data
    {
      content[ri..]
    }

    // Everything not saved: the bytes of the stream this buffer still holds.
    ghost function Unread(): seq<byte>
      requires Valid()
      reads this, data
    {
      content[si..]
    }

    lemma NothingUnread()
      requires Valid() && Readable() == [] && Written() == []
      ensures Unread() == []
    {
      assert |Unread()| == |Readable()| + |Written()|;
    }

    constructor ()
      ensures Valid() && fresh(data)
      ensures Saved() == [] && Readable() == [] && Written() == []
      ensures data.Length == 512
    {
      si, ri, wi := 0, 0, 0;
      data := new byte[512];
      content := [];
    }

    // A part of the slice.
    method Slice(from: nat, to: nat) returns (bytes: seq<byte>)
      requires Intact() && from <= to <= wi
      ensures bytes == content[from..to]
    {
      bytes := data[from..to];
      forall i | 0 <= i < to - from ensures bytes[i] == content[from + i] {
        assert data[..wi][from + i] == data[from + i];
      }
    }

    // The first k bytes of the read area.
    method Front(k: nat) returns (bytes: seq<byte>)
      requires Valid() && k <= |Readable()|
      ensures bytes == Readable()[..k] == Unread()[..k]
    {
      hide ByteBuffer.Intact;
      bytes := Slice(si, si + k);
      FrontOf(content, si, ri, k);
    }

    // Data: the read area.
    method Data() returns (bytes: seq<byte>)
      requires Valid()
      ensures bytes == Readable()
    {
      hide ByteBuffer.Intact;
      bytes := Slice(si, ri);
    }

    // The slice loses the k bytes at i, or all behind `end`, or gets more bytes at its end.
    method CutOut(i: nat, k: nat)
      requires Intact() && i + k <= wi
      modifies `wi, `content, data
      ensures Intact() && content == Without(old(content), i, k) && wi == old(wi) - k
    {
      hide Without;
      MoveDown(data, i, k, wi, content);
      content := Without(content, i, k);
      wi := wi - k;
    }

    method Truncate(end: nat)
      requires Intact() && end <= wi
      modifies `wi, `content
      ensures Intact() && content == old(content)[..end] && wi == end
    {
      assert data[..end] == data[..wi][..end];
      wi := end;
      content := content[..end];
    }

    method Widen(n: nat)
      requires Intact() && wi + n <= data.Length
      modifies `wi, `content
      ensures Intact() && old(content) <= content && wi == old(wi) + n
    {
      wi := wi + n;
      content := data[..wi];
      assert content[..wi - n] == data[..wi - n];
    }

    method Append(bytes: seq<byte>)
      requires Intact() && wi + |bytes| <= data.Length
      modifies `wi, `content, data
      ensures Intact() && content == old(content) + bytes && wi == old(wi) + |bytes|
    {
      Put(bytes);
      wi := wi + |bytes|;
      content := content + bytes;
    }

    method Reserve(n: int)
      requires Valid()
      modifies `data
      ensures Valid() && (data == old(data) || fresh(data))
      ensures data.Length - wi >= n && data.Length >= old(data.Length)
    {
      hide ByteBuffer.Intact;
      var existing := data.Length - wi;
      var need := n - existing;
      if need > 0 {
        // append may grow the slice by more than it is asked for
        var newCap: nat :| newCap >= data.Length + need;
        Grow(newCap);
      }
    }

    // Reallocate; the contents are kept.
    method Grow(newCap: nat)
      requires Valid() && newCap >= data.Length
      modifies `data
      ensures Valid() && fresh(data) && data.Length == newCap
    {
      var old', len := data, wi;
      var bigger := new byte[newCap];
      forall i | 0 <= i < len { bigger[i] := old'[i]; }
      assert bigger[..len] == old'[..len];
      data := bigger;
    }

    method Commit(n: int)
      requires Valid()
      modifies `ri
      ensures Valid()
      ensures var k := Max(0, Min(n, |old(Written())|));
        Readable() == old(Readable()) + old(Written())[..k] && Written() == old(Written())[k..]
      ensures Saved() == old(Saved())
    {
      hide ByteBuffer.Intact;
      if n <= 0 { return; }
      ghost var k := Min(n, wi - ri);
      Halved(content, si, ri, wi, k);
      ri := ri + n;
      if ri > wi { ri := wi; }
    }

    method Consume(n: int)
      requires Valid()
      modifies `ri, `wi, `content, data
      ensures Valid()
      ensures Readable() == old(Readable())[Max(0, Min(n, |old(Readable())|))..]
      ensures Saved() == old(Saved()) && Written() == old(Written())
    {
      hide Without, ByteBuffer.Intact;
      if n <= 0 { return; }
      var k := Min(n, ri - si);
      if k > 0 {
        CutFront(content, si, k, ri);
        CutOut(si, k);
        ri := ri - k;
      }
    }

    method Save(n: int) returns (slot: Slot)
      requires Valid()
      modifies `si
      ensures Valid()
      ensures var k := Max(0, Min(n, |old(Readable())|));
        && slot == (if k == 0 then Slot(0, 0) else Slot(|old(Saved())|, k))
        && Saved() == old(Saved()) + old(Readable())[..k] && Readable() == old(Readable())[k..]
      ensures Written() == old(Written())
    {
      hide ByteBuffer.Intact;
      var k := Min(n, ri - si);
      if k <= 0 { return Slot(0, 0); }
      Halved(content, 0, si, ri, k);
      slot := Slot(si, k);
      si := si + k;
    }

    method SavedSlot(slot: Slot) returns (bytes: seq<byte>)
      requires Valid() && 0 <= slot.index && 0 <= slot.length && slot.index + slot.length <= si
      ensures bytes == Saved()[slot.index..slot.index + slot.length]
    {
      hide ByteBuffer.Intact;
      bytes := Slice(slot.index, slot.index + slot.length);
      InPrefix(content, si, slot.index, slot.index + slot.length);
    }

    method Discard(slot: Slot) returns (discarded: int)
      requires Valid()
      requires slot.length > 0 ==> 0 <= slot.index && slot.index + slot.length <= si
      modifies `si, `ri, `wi, `content, data
      ensures Valid() && discarded == Max(0, slot.length)
      ensures slot.length <= 0 ==> Saved() == old(Saved())
      ensures slot.length > 0 ==>
        Saved() == old(Saved())[..slot.index] + old(Saved())[slot.index + slot.length..]
      ensures Readable() == old(Readable()) && Written() == old(Written())
    {
      hide Without, ByteBuffer.Intact;
      if slot.length <= 0 { return 0; }
      var i, k := slot.index, slot.length;
      CutAreas(content, i, k, si, ri);
      CutOut(i, k);
      si, ri := si - k, ri - k;
      return k;
    }

    method DiscardAll()
      requires Valid()
      modifies `si, `ri, `wi, `content, data
      ensures Valid() && Saved() == []
      ensures Readable() == old(Readable()) && Written() == old(Written())
    {
      var _ := Discard(Slot(0, si));
    }

    method Reset()
      modifies `si, `ri, `wi, `content
      ensures Valid() && Saved() == [] && Readable() == [] && Written() == []
    {
      si, ri, wi := 0, 0, 0;
      content := [];
    }

    // Read at most `room` bytes out of the read area. End of file is reported when both the
    // save and the read area are empty, and never when `room` is 0.
    method Read(room: nat) returns (bytes: seq<byte>, eof: bool)
      requires Valid()
      modifies `ri, `wi, `content, data
      ensures Valid() && eof == (room > 0 && old(Saved()) == [] && old(Readable()) == [])
      ensures bytes + Readable() == old(Readable()) && |bytes| == Min(room, |old(Readable())|)
      ensures Saved() == old(Saved()) && Written() == old(Written())
    {
      hide ByteBuffer.Intact;
      if room == 0 { return [], false; }
      if ri == 0 { return [], true; }
      var n := Min(room, ri - si);
      bytes := Front(n);
      eof := false;
      ghost var area := Readable();
      assert area[..n] + area[n..] == area;
      Consume(n);
    }

    method UnreadByte() returns (eof: bool)
      requires Valid()
      modifies `wi, `content
      ensures Valid() && eof == (old(Written()) == [])
      ensures Written() == if eof then [] else old(Written())[..|old(Written())| - 1]
      ensures Saved() == old(Saved()) && Readable() == old(Readable())
    {
      if wi - ri > 0 {
        Shortened(content, si, ri, wi - 1);
        Truncate(wi - 1);
        return false;
      }
      return true;
    }

    method ShrinkBy(n: int) returns (k: int)
      requires Valid()
      modifies `wi, `content
      ensures Valid() && k == Max(0, Min(n, |old(Written())|))
      ensures Written() == old(Written())[..|old(Written())| - k]
      ensures Saved() == old(Saved()) && Readable() == old(Readable())
    {
      hide ByteBuffer.Intact;
      if n <= 0 { return 0; }
      k := Min(n, wi - ri);
      Shortened(content, si, ri, wi - k);
      Truncate(wi - k);
    }

    method ShrinkTo(n: int) returns (k: int)
      requires Valid()
      modifies `wi, `content
      ensures Valid() && k == |old(Written())| - |Written()|
      ensures Written() == old(Written())[..Max(0, Min(n, |old(Written())|))]
      ensures Saved() == old(Saved()) && Readable() == old(Readable())
    {
      k := ShrinkBy(wi - ri - n);
    }

    method PrepareRead(n: int) returns (needMore: bool)
      requires Valid()
      modifies `ri
      ensures Valid() && needMore == (n > |old(Readable())| + |old(Written())|)
      ensures needMore ==> ri == old(ri)
      ensures !needMore ==> |Readable()| == Max(n, |old(Readable())|)
      ensures Readable() + Written() == old(Readable() + Written()) && Saved() == old(Saved())
    {
      hide ByteBuffer.Intact;
      var need := n - (ri - si);
      if need > 0 {
        if wi - ri >= need {
          Commit(need);
        } else {
          return true;
        }
      }
      return false;
    }

    method Write(bytes: seq<byte>) returns (n: nat)
      requires Valid()
      modifies `wi, `data, `content, data
      ensures Valid() && (data == old(data) || fresh(data)) && n == |bytes|
      ensures data.Length >= old(data.Length)
      ensures Written() == old(Written()) + bytes
      ensures Saved() == old(Saved()) && Readable() == old(Readable())
    {
      hide ByteBuffer.Intact;
      Reserve(|bytes|);
      Longer(content, bytes, si, ri);
      Append(bytes);
      n := |bytes|;
    }

    // Store bytes right behind the write area, which does not grow.
    method Put(bytes: seq<byte>)
      requires Intact() && wi + |bytes| <= data.Length
      modifies data
      ensures Intact() && data[..wi + |bytes|] == content + bytes
    {
      forall i | 0 <= i < |bytes| { data[wi + i] := bytes[i]; }
    }

    // The callback writes `bytes` at the start of the free space and answers n.
    method Claim(bytes: seq<byte>, n: int)
      requires Valid() && |bytes| <= data.Length - wi
      modifies `wi, `content, data
      ensures Valid()
      ensures 0 <= n <= |bytes| ==> Written() == old(Written()) + bytes[..n]
      ensures |bytes| < n <= data.Length - old(wi) ==>
        |Written()| == |old(Written())| + n && old(Written()) + bytes <= Written()
      ensures n < 0 || n > data.Length - old(wi) ==> Written() == old(Written())
      ensures Saved() == old(Saved()) && Readable() == old(Readable())
    {
      Put(bytes);
      if n >= 0 && wi + n <= data.Length {
        wi := wi + n;
        Grown(data[..], content, bytes, wi, si, ri);
        content := data[..wi];
      }
    }

    // Grow the write area by exactly n bytes of free space; nil when they do not fit.
    method ClaimFixed(n: int) returns (claimed: Slot)
      requires Valid()
      modifies `wi, `content
      ensures Valid()
      ensures 0 <= n <= data.Length - old(wi) ==> claimed == Slot(old(wi), n) && wi == old(wi) + n
      ensures n < 0 || n > data.Length - old(wi) ==> claimed == Slot(0, 0) && wi == old(wi)
      ensures old(Written()) <= Written()
      ensures Saved() == old(Saved()) && Readable() == old(Readable())
    {
      hide ByteBuffer.Intact;
      claimed := Slot(0, 0);
      if n >= 0 && wi + n <= data.Length {
        claimed := Slot(wi, n);
        ghost var c := content;
        Widen(n);
        Widened(c, content, si, ri);
      }
    }

    method ReadFrom(t: Transport) returns (r: ReadResult)
      requires Valid()
      modifies `wi, `content, data, t`incoming, t`readScript
      ensures Valid() && (r.Read? ==> |r.bytes| <= data.Length - old(wi))
      ensures r.Read? ==> Written() == old(Written()) + r.bytes && old(t.incoming) == r.bytes + t.incoming
      ensures r.Read? && old(wi) < data.Length ==> |r.bytes| > 0
      ensures r.ReadError? ==> Written() == old(Written()) && t.incoming == old(t.incoming)
      ensures r == ReadError(EOF) ==> t.incoming == []
      ensures Spent(old(t.readScript), r == ReadError(Failed), t.readScript)
      ensures Saved() == old(Saved()) && Readable() == old(Readable())
    {
      hide Spent, ByteBuffer.Intact;
      r := t.ReadSome(data.Length - wi);
      if r.Read? {
        Longer(content, r.bytes, si, ri);
        Append(r.bytes);
      }
    }

    // Write out the read area, in as many writes as it takes. After an error more than the bytes
    // acknowledged so far may have gone out.
    method SendAll(t: Transport) returns (written: nat, failed: bool)
      requires Valid()
      modifies t`sent, t`writeScript
      ensures Valid() && written <= |Readable()|
      ensures !failed ==> t.sent == old(t.sent) + Readable() && written == |Readable()|
      ensures failed ==> exists m: nat :: written <= m <= |Readable()| && t.sent == old(t.sent) + Readable()[..m]
      ensures WritesSpent(old(t.writeScript), failed, t.writeScript)
    {
      hide ByteBuffer.Intact, WriteFailures;
      ghost var area := Readable();
      Whole(area);
      written, failed := 0, false;
      while si + written < ri
        invariant Valid() && written <= |area| && t.sent == old(t.sent) + area[..written]
        invariant WritesSpent(old(t.writeScript), failed, t.writeScript)
        decreases |area| - written
      {
        ghost var sent := t.sent;
        var chunk := Slice(si + written, ri);
        Behind(content, si, ri, written);
        var r := t.WriteSome(chunk);
        if r.WriteError? {
          failed := true;
          ghost var k: nat :| k < |area| - written && t.sent == sent + area[written..][..k];
          PrefixGrows(old(t.sent), area, written, k);
          assert t.sent == old(t.sent) + area[..written + k];
          break;
        }
        PrefixGrows(old(t.sent), area, written, r.count);
        written := written + r.count;
      }
    }

    // After an error the bytes acknowledged so far are consumed.
    method WriteTo(t: Transport) returns (written: nat, failed: bool)
      requires Valid()
      modifies `ri, `wi, `content, data, t`sent, t`writeScript
      ensures Valid() && written <= |old(Readable())| && Readable() == old(Readable())[written..]
      ensures !failed ==> t.sent == old(t.sent) + old(Readable()) && written == |old(Readable())|
      ensures failed ==>
        exists m: nat :: written <= m <= |old(Readable())| && t.sent == old(t.sent) + old(Readable())[..m]
      ensures WritesSpent(old(t.writeScript), failed, t.writeScript)
      ensures Saved() == old(Saved()) && Written() == old(Written())
    {
      hide ByteBuffer.Intact, WritesSpent;
      written, failed := SendAll(t);
      Consume(written);
    }

    // AsyncWriteTo, from the call to its callback. After an error nothing is consumed, not even what
    // went out.
    method AsyncWriteTo(t: Transport) returns (written: nat, failed: bool)
      requires Valid()
      modifies `ri, `wi, `content, data, t`sent, t`writeScript
      ensures Valid() && written <= |old(Readable())| && Readable() == if failed then old(Readable()) else []
      ensures !failed ==> t.sent == old(t.sent) + old(Readable()) && written == |old(Readable())|
      ensures failed ==>
        exists m: nat :: written <= m <= |old(Readable())| && t.sent == old(t.sent) + old(Readable())[..m]
      ensures WritesSpent(old(t.writeScript), failed, t.writeScript)
      ensures Saved() == old(Saved()) && Written() == old(Written())
    {
      hide ByteBuffer.Intact, WritesSpent;
      written, failed := SendAll(t);
      if !failed { Consume(written); }
    }
  }
}
