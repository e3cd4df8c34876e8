/** memmove, memcpy and memset on a byte buffer, described by the parts the buffer is made of. */
module Buffers {
  import opened Elements

  /** Close a gap: move `tail` to the left over `gap`.  What is left behind it is `junk`. */
  method MemMoveLeft(buf: array<Byte>, dst: nat, src: nat, n: nat,
                     ghost front: seq<Byte>, ghost gap: seq<Byte>, ghost tail: seq<Byte>, ghost post: seq<Byte>)
    returns (ghost junk: seq<Byte>)
    requires buf[..] == front + gap + tail + post
    requires |front| == dst && |front| + |gap| == src && |tail| == n
    modifies buf
    ensures buf[..] == front + tail + junk + post && |junk| == |gap|
  {
    ghost var s := buf[..];
    forall i | 0 <= i < n { buf[dst + i] := buf[src + i]; }
    junk := buf[..][dst + n..src + n];
    forall i | 0 <= i < |s| ensures buf[..][i] == (front + tail + junk + post)[i] {
      assert s[i] == (front + gap + tail + post)[i];
      if dst <= i < dst + n { assert s[i - dst + src] == tail[i - dst]; }
    }
    assert buf[..] == front + tail + junk + post;
  }

  /** memmove to the right: `body` moves by `d` octets over what stands behind it. */
  method MemMoveRight(buf: array<Byte>, at: nat, n: nat, d: nat,
                      ghost front: seq<Byte>, ghost body: seq<Byte>, ghost behind: seq<Byte>)
    returns (ghost gap: seq<Byte>, ghost rest: seq<Byte>)
    requires buf[..] == front + body + behind && |front| == at && |body| == n && d <= |behind|
    modifies buf
    ensures buf[..] == front + gap + body + rest && |gap| == d && |rest| == |behind| - d
  {
    ghost var s := buf[..];
    forall i | 0 <= i < n { buf[at + d + i] := buf[at + i]; }
    gap, rest := buf[..][at..at + d], buf[..][at + d + n..];
    forall i | 0 <= i < |s| ensures buf[..][i] == (front + gap + body + rest)[i] {
      assert s[i] == (front + body + behind)[i];
      if at + d <= i < at + d + n { assert s[i - d] == body[i - d - at]; }
    }
    assert buf[..] == front + gap + body + rest;
  }

  /** memcpy from outside the buffer. */
  method MemCpy(buf: array<Byte>, at: nat, data: seq<Byte>, ghost front: seq<Byte>, ghost gone: seq<Byte>, ghost post: seq<Byte>)
    requires buf[..] == front + gone + post && |front| == at && |gone| == |data|
    modifies buf
    ensures buf[..] == front + data + post
  {
    ghost var s := buf[..];
    forall i | 0 <= i < |data| { buf[at + i] := data[i]; }
    forall i | 0 <= i < |s| ensures buf[..][i] == (front + data + post)[i] {
      assert s[i] == (front + gone + post)[i];
    }
    assert buf[..] == front + data + post;
  }

  /** memcpy over whatever is there. */
  method Overwrite(buf: array<Byte>, at: nat, data: seq<Byte>, ghost front: seq<Byte>, ghost behind: seq<Byte>)
    returns (ghost post: seq<Byte>)
    requires buf[..] == front + behind && |front| == at && |data| <= |behind|
    modifies buf
    ensures buf[..] == front + data + post
  {
    post := behind[|data|..];
    assert behind == behind[..|data|] + post;
    Assoc(front, behind[..|data|], post);
    MemCpy(buf, at, data, front, behind[..|data|], post);
  }

  function Zeros(n: nat): (z: seq<Byte>)
    ensures |z| == n && forall i :: 0 <= i < n ==> z[i] == 0
  {
    seq(n, _ => 0)
  }

  lemma ZerosConcat(m: nat, n: nat)
    ensures Zeros(m) + Zeros(n) == Zeros(m + n)
  {}

  method MemSetZero(buf: array<Byte>, at: nat, n: nat, ghost front: seq<Byte>, ghost junk: seq<Byte>, ghost post: seq<Byte>)
    requires buf[..] == front + junk + post && |front| == at && |junk| == n
    modifies buf
    ensures buf[..] == front + Zeros(n) + post
  {
    ghost var s := buf[..];
    forall i | 0 <= i < n { buf[at + i] := 0; }
    forall i | 0 <= i < |s| ensures buf[..][i] == (front + Zeros(n) + post)[i] {
      assert s[i] == (front + junk + post)[i];
    }
    assert buf[..] == front + Zeros(n) + post;
  }

  /** Close a gap and clear what it frees. */
  method MoveAndClear(buf: array<Byte>, dst: nat, src: nat, n: nat,
                      ghost front: seq<Byte>, ghost gap: seq<Byte>, ghost tail: seq<Byte>, ghost post: seq<Byte>)
    requires buf[..] == front + gap + tail + post
    requires |front| == dst && |front| + |gap| == src && |tail| == n
    modifies buf
    ensures buf[..] == front + tail + Zeros(|gap|) + post
  {
    ghost var junk := MemMoveLeft(buf, dst, src, n, front, gap, tail, post);
    MemSetZero(buf, dst + n, src - dst, front + tail, junk, post);
  }
}
