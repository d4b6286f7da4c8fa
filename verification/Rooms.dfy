/** The room of one sync-PvP match (server/internal/ws/rooms.go) and its conns. */
module Rooms {
  import opened Common
  import opened Messages

  /** The conn list after `c` was added. */
  function Joined<C(==)>(conns: seq<C>, c: C): seq<C> {
    if c in conns then conns else conns + [c]
  }

  /** The conn list after the first occurrence of `c` was taken out. */
  function Left<C(==)>(conns: seq<C>, c: C): seq<C> {
    if conns == [] then []
    else if conns[0] == c then conns[1..]
    else [conns[0]] + Left(conns[1..], c)
  }

  lemma {:induction false} LeftAt<C>(conns: seq<C>, c: C, i: nat)
    requires i < |conns| && conns[i] == c
    requires forall k :: 0 <= k < i ==> conns[k] != c
    ensures Left(conns, c) == conns[..i] + conns[i + 1..]
  {
    if i == 0 {
      assert conns[..0] + conns[1..] == conns[1..];
    } else {
      LeftAt(conns[1..], c, i - 1);
      assert [conns[0]] + conns[1..][..i - 1] == conns[..i];
      assert conns[1..][i..] == conns[i + 1..];
    }
  }

  lemma {:induction false} LeftOfAbsent<C>(conns: seq<C>, c: C)
    requires c !in conns
    ensures Left(conns, c) == conns
  {
    if conns != [] {
      LeftOfAbsent(conns[1..], c);
    }
  }

  /** On a duplicate-free list, leaving removes exactly the one conn and keeps the rest. */
  lemma {:induction false} LeftIsExact<C>(conns: seq<C>, c: C)
    requires Distinct(conns)
    ensures Distinct(Left(conns, c))
    ensures forall d :: d in Left(conns, c) <==> d in conns && d != c
  {
    if conns == [] {
    } else if conns[0] == c {
      assert conns == [c] + conns[1..];
    } else {
      LeftIsExact(conns[1..], c);
      var rest := Left(conns[1..], c);
      assert conns == [conns[0]] + conns[1..];
      assert conns[0] !in conns[1..];
      assert Left(conns, c) == [conns[0]] + rest;
      assert conns[0] !in rest;
    }
  }

  /** `inbox` is what broadcasts wrote to the socket. */
  class Conn {
    var uid: string
    var matchID: string
    var inbox: seq<Envelope>

    constructor (uid: string)
      ensures this.uid == uid && matchID == "" && inbox == []
    {
      this.uid, this.matchID, this.inbox := uid, "", [];
    }
  }

  /** `Room` keeps its conns in a growable slice: a backing array and a length. */
  class Room {
    const matchID: string
    var buf: array<Conn>
    var len: nat
    ghost var conns: seq<Conn>      // the slice's contents

    ghost predicate Valid()
      reads this, buf
    {
      len <= buf.Length && conns == buf[..len]
    }

    constructor (matchID: string)
      ensures Valid() && fresh(buf)
      ensures this.matchID == matchID && conns == []
    {
      this.matchID := matchID;
      this.buf := new Conn[0];
      this.len := 0;
      this.conns := [];
    }

    /** Appends `c` unless it is present. A full slice moves to a larger backing array. */
    method Add(c: Conn) returns (added: bool)
      requires Valid()
      modifies this`buf, this`len, this`conns, buf
      ensures Valid() && (buf == old(buf) || fresh(buf))
      ensures conns == Joined(old(conns), c)
      ensures added == (c !in old(conns))
      ensures conns == if added then old(conns) + [c] else old(conns)
    {
      for i := 0 to len
        invariant forall k :: 0 <= k < i ==> buf[k] != c
      {
        if buf[i] == c {
          return false;
        }
      }
      if len == buf.Length {
        var src, n := buf, len;
        buf := new Conn[2 * n + 1](i requires 0 <= i reads src => if i < n && i < src.Length then src[i] else c);
      }
      buf[len] := c;
      len := len + 1;
      conns := conns + [c];
      return true;
    }

    /** Shifts the tail down over the removed conn, inside the same backing array.
        The old last cell keeps its value, so a slice header of the old length that
        still points into this array reads the last conn twice. */
    method Remove(c: Conn)
      requires Valid()
      modifies this`len, this`conns, buf
      ensures Valid()
      ensures conns == Left(old(conns), c)
      ensures c in old(conns) ==> buf[..old(len)] == Left(old(conns), c) + [old(conns)[old(len) - 1]]
    {
      for i := 0 to len
        invariant forall k :: 0 <= k < i ==> buf[k] != c
      {
        if buf[i] == c {
          LeftAt(buf[..len], c, i);
          forall k | i <= k < len - 1 {
            buf[k] := buf[k + 1];
          }
          len := len - 1;
          conns := Left(conns, c);
          return;
        }
      }
      LeftOfAbsent(buf[..len], c);
    }

    /** A copy in its own array: later shifts of `buf` cannot reach it. */
    method Snapshot() returns (out: array<Conn>)
      requires Valid()
      ensures fresh(out) && out[..] == conns
    {
      var src, n := buf, len;
      out := new Conn[n](i requires 0 <= i < n <= src.Length reads src => src[i]);
    }

    method Empty() returns (empty: bool)
      requires Valid()
      ensures empty <==> conns == []
    {
      return len == 0;
    }
  }
}
