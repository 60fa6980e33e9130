/** Destinations of received bytes: files with a position, plain writers and the discard sink. */
module Files {
  import opened Common

  datatype DestKind = Discard | Stream | Seekable

  /** `room` is how many more bytes the device accepts before a write comes up short. */
  datatype Dest = Dest(kind: DestKind, content: Bytes, pos: nat, room: nat)

  function Zeros(n: nat): Bytes { seq(n, i => 0 as byte) }

  /** Writing `data` at `pos`: a gap before `pos` reads as zeros, bytes after the written range stay. */
  function Overlay(content: Bytes, pos: nat, data: Bytes): Bytes {
    if data == [] then content
    else
      var base := if pos <= |content| then content[..pos] else content + Zeros(pos - |content|);
      base + data + if pos + |data| <= |content| then content[pos + |data|..] else []
  }

  /** Cut to `n` bytes, or filled up with zeros. */
  function Resized(content: Bytes, n: nat): Bytes {
    if n <= |content| then content[..n] else content + Zeros(n - |content|)
  }

  function Written(d: Dest, data: Bytes): Dest {
    var n := Min(|data|, d.room);
    match d.kind
    case Discard => d
    case Stream => d.(content := d.content + data[..n], room := d.room - n)
    case Seekable => d.(content := Overlay(d.content, d.pos, data[..n]), pos := d.pos + n, room := d.room - n)
  }

  predicate Fits(d: Dest, data: Bytes) { d.kind.Discard? || |data| <= d.room }

  lemma WritingNothing(d: Dest)
    ensures Written(d, []) == d && Fits(d, [])
  {
    assert d.content + [] == d.content;
  }

  /**
   * One write: the device takes as much as it has room for; a plain writer appends
   * it, the discard sink keeps nothing, and a file holds it from its position on,
   * with zeros in a gap before it and every other byte as it was.
   */
  lemma WriteEffect(d: Dest, data: Bytes, i: nat)
    requires d.kind.Seekable? ==> i < |Written(d, data).content|
    ensures var n := if |data| < d.room then |data| else d.room;
            var w := Written(d, data);
            && w.kind == d.kind
            && (d.kind.Discard? ==> w == d)
            && (!d.kind.Discard? ==> w.room == d.room - n)
            && (d.kind.Stream? ==> w.content == d.content + data[..n] && w.pos == d.pos)
            && (d.kind.Seekable? ==>
                  && w.pos == d.pos + n
                  && |w.content| == (if n == 0 || d.pos + n < |d.content| then |d.content| else d.pos + n)
                  && w.content[i] == (if d.pos <= i < d.pos + n then data[i - d.pos]
                                      else if i < |d.content| then d.content[i] else 0))
  {
  }

  /** Truncation keeps the bytes up to the new length, and fills up with zeros. */
  lemma ResizeEffect(content: Bytes, n: nat, i: nat)
    requires i < n
    ensures |Resized(content, n)| == n && Resized(content, n)[i] == if i < |content| then content[i] else 0
  {
  }

  class Destination {
    const kind: DestKind
    var content: Bytes
    var pos: nat
    var room: nat

    function View(): Dest
      reads this
    {
      Dest(kind, content, pos, room)
    }

    constructor (kind: DestKind, content: Bytes, pos: nat, room: nat)
      ensures View() == Dest(kind, content, pos, room)
    {
      this.kind, this.content, this.pos, this.room := kind, content, pos, room;
    }

    method Write(data: Bytes) returns (n: nat)
      modifies this
      ensures View() == Written(old(View()), data)
      ensures n <= |data| && (n == |data| <==> Fits(old(View()), data))
    {
      if kind.Discard? { return |data|; }
      n := Min(|data|, room);
      content := if kind.Stream? then content + data[..n] else Overlay(content, pos, data[..n]);
      pos := if kind.Stream? then pos else pos + n;
      room := room - n;
    }

    method Seek(p: nat)
      requires kind.Seekable?
      modifies this
      ensures View() == old(View()).(pos := p)
    {
      pos := p;
    }

    /** Reads up to `n` bytes from the position, as io.ReadFull and io.CopyN do. */
    method Read(n: nat) returns (data: Bytes)
      requires kind.Seekable?
      modifies this
      ensures var s := Min(old(pos), |content|); data == content[s..Min(s + n, |content|)]
      ensures View() == old(View()).(pos := old(pos) + |data|)
    {
      var s := Min(pos, |content|);
      data := content[s..Min(s + n, |content|)];
      pos := pos + |data|;
    }

    method Truncate(n: nat)
      requires kind.Seekable?
      modifies this
      ensures View() == old(View()).(content := Resized(old(content), n))
    {
      content := Resized(content, n);
    }
  }

  /** Writing at the end of an agreed prefix extends that prefix. */
  lemma OverlayExtendsPrefix(content: Bytes, pos: nat, data: Bytes)
    requires pos <= |content|
    ensures |Overlay(content, pos, data)| == Max(|content|, pos + |data|)
    ensures Overlay(content, pos, data)[..pos + |data|] == content[..pos] + data
  {
  }

  /** Bytes outside the written range are not disturbed. */
  lemma OverlayKeepsOutside(content: Bytes, pos: nat, data: Bytes, i: nat)
    requires i < |content| && (i < pos || pos + |data| <= i)
    ensures i < |Overlay(content, pos, data)| && Overlay(content, pos, data)[i] == content[i]
  {
  }
}
