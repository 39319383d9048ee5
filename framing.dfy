/** The host decoders' frame synchronisation, as functions of the received bytes.

    A decoder slides a 4-byte window, initially four zero bytes, over the stream
    until the window reads "head"; it then reads a fixed number of payload bytes
    and 4 more bytes that must read "tail". On a mismatch it starts a new head
    search right after those 4 bytes. The 26-byte and the 30-byte layouts differ
    only in the payload length, so both are this one function with a parameter. */
module Framing {
  import opened Bytes

  /** The window the head search starts from: `bytearray(4)`. */
  const ZEROS: seq<Byte> := [0, 0, 0, 0]

  /** One step of the window: append the byte just read and keep the last four. */
  function Shift(w: seq<Byte>, b: Byte): seq<Byte>
    requires |w| == 4
  {
    (w + [b])[1..]
  }

  /** The head search with window w after reading s[..i]: the position just after
      the byte that completed "head", or None when the bytes run out first. */
  function SearchHead(s: seq<Byte>, i: nat, w: seq<Byte>): (r: Option<nat>)
    requires i <= |s| && |w| == 4
    ensures r.Some? ==> i <= r.value <= |s|
    decreases |s| - i
  {
    if w == HEAD then Some(i)
    else if i == |s| then None
    else SearchHead(s, i + 1, Shift(w, s[i]))
  }

  /** The four bytes before position j read "head", and all four were read after `from`. */
  predicate HeadEndsAt(s: seq<Byte>, from: nat, j: nat)
  {
    from + 4 <= j <= |s| && s[j - 4..j] == HEAD
  }

  /** The window after a head search from `from` has read s[from..i]. */
  function Window(s: seq<Byte>, from: nat, i: nat): (w: seq<Byte>)
    requires from <= i <= |s|
    ensures |w| == 4
  {
    (ZEROS + s[from..i])[i - from..]
  }

  /** The window reads "head" exactly when the last four bytes read are "head": the
      zero bytes it starts with can never be part of a match. */
  lemma WindowMatches(s: seq<Byte>, from: nat, i: nat)
    requires from <= i <= |s|
    ensures Window(s, from, i) == HEAD <==> HeadEndsAt(s, from, i)
  {
    var w := Window(s, from, i);
    if i - from < 4 {
      assert w[0] == 0 != HEAD[0];
    } else {
      assert w == s[i - 4..i];
    }
  }

  lemma WindowShift(s: seq<Byte>, from: nat, i: nat)
    requires from <= i < |s|
    ensures Shift(Window(s, from, i), s[i]) == Window(s, from, i + 1)
  {
    assert s[from..i + 1] == s[from..i] + [s[i]];
    assert ZEROS + s[from..i + 1] == (ZEROS + s[from..i]) + [s[i]];
  }

  lemma {:induction false} SearchFrom(s: seq<Byte>, from: nat, i: nat)
    requires from <= i <= |s|
    requires forall j :: from <= j < i ==> !HeadEndsAt(s, from, j)
    ensures match SearchHead(s, i, Window(s, from, i))
      case Some(k) => HeadEndsAt(s, from, k) && forall j :: from <= j < k ==> !HeadEndsAt(s, from, j)
      case None => forall j :: from <= j <= |s| ==> !HeadEndsAt(s, from, j)
    decreases |s| - i
  {
    WindowMatches(s, from, i);
    if Window(s, from, i) != HEAD && i < |s| {
      WindowShift(s, from, i);
      SearchFrom(s, from, i + 1);
    }
  }

  /** The head search started from the zero window stops at the first position whose
      four preceding bytes, all read during this search, are "head"; it finds nothing
      only when no such position exists. */
  lemma FirstHead(s: seq<Byte>, from: nat)
    requires from <= |s|
    ensures match SearchHead(s, from, ZEROS)
      case Some(k) => HeadEndsAt(s, from, k) && forall j :: from <= j < k ==> !HeadEndsAt(s, from, j)
      case None => forall j :: from <= j <= |s| ==> !HeadEndsAt(s, from, j)
  {
    assert Window(s, from, from) == ZEROS;
    SearchFrom(s, from, from);
  }

  /** A head search that succeeds stops just after a "head" read after `from`. */
  lemma SearchSound(s: seq<Byte>, from: nat)
    requires from <= |s|
    ensures match SearchHead(s, from, ZEROS)
      case Some(k) => HeadEndsAt(s, from, k)
      case None => true
  {
    FirstHead(s, from);
  }

  /** The whole synchronisation loop for frames of `payload` bytes between the markers:
      Some((k, e)) when the frame whose payload starts at k is accepted and the stream
      has been read up to e; None when the bytes run out first. */
  function Decode(s: seq<Byte>, from: nat, payload: nat): (r: Option<(nat, nat)>)
    requires from <= |s|
    ensures r.Some? ==> from <= r.value.0 && r.value.1 == r.value.0 + payload + 4 <= |s|
    decreases |s| - from
  {
    match SearchHead(s, from, ZEROS)
    case None => None
    case Some(k) =>
      if k + payload + 4 > |s| then None
      else if s[k + payload..k + payload + 4] == TAIL then Some((k, k + payload + 4))
      else Decode(s, k + payload + 4, payload)
  }

  /** The frame whose payload starts at k, read up to e, has "head" before its payload
      (all read after `from`) and "tail" after it. */
  predicate Accepted(s: seq<Byte>, from: nat, payload: nat, k: nat, e: nat)
  {
    HeadEndsAt(s, from, k) && e == k + payload + 4 <= |s| && s[k + payload..e] == TAIL
  }

  /** An accepted frame is "head", the payload and "tail", read after `from`. */
  lemma {:induction false} DecodeSound(s: seq<Byte>, from: nat, payload: nat)
    requires from <= |s|
    ensures match Decode(s, from, payload)
      case Some((k, e)) => Accepted(s, from, payload, k, e)
      case None => true
    decreases |s| - from
  {
    SearchSound(s, from);
    var r := Decode(s, from, payload);
    match SearchHead(s, from, ZEROS)
    case None =>
    case Some(k) =>
      var e := k + payload + 4;
      if e <= |s| {
        if s[k + payload..e] == TAIL {
          assert r == Some((k, e));
          assert Accepted(s, from, payload, k, e);
        } else {
          assert r == Decode(s, e, payload);
          DecodeSound(s, e, payload);
        }
      }
  }

  /** A frame that starts exactly at `from` is accepted as it stands. */
  lemma DecodeAligned(s: seq<Byte>, from: nat, payload: nat)
    requires from + payload + 8 <= |s|
    requires s[from..from + 4] == HEAD && s[from + payload + 4..from + payload + 8] == TAIL
    ensures Decode(s, from, payload) == Some((from + 4, from + payload + 8))
  {
    HeadAtStart(s, from);
  }

  /** A "head" in the first four bytes read ends the head search right after it. */
  lemma HeadAtStart(s: seq<Byte>, from: nat)
    requires from + 4 <= |s| && s[from..from + 4] == HEAD
    ensures SearchHead(s, from, ZEROS) == Some(from + 4)
  {
    FirstHead(s, from);
    assert HeadEndsAt(s, from, from + 4);
  }

  /** One attempt of the synchronisation loop: when the head search stops at k and the
      four bytes after the payload are there, the frame is accepted if they read "tail"
      and decoding otherwise starts over after them. */
  lemma DecodeAttempt(s: seq<Byte>, from: nat, payload: nat, k: nat)
    requires from <= |s| && SearchHead(s, from, ZEROS) == Some(k) && k + payload + 4 <= |s|
    ensures s[k + payload..k + payload + 4] == TAIL ==> Decode(s, from, payload) == Some((k, k + payload + 4))
    ensures s[k + payload..k + payload + 4] != TAIL ==>
      Decode(s, from, payload) == Decode(s, k + payload + 4, payload)
  {
  }

  /** After a tail mismatch nothing of the rejected frame is looked at again: the next
      accepted frame's marker lies wholly after the four bytes compared with "tail". */
  lemma NoRescan(s: seq<Byte>, from: nat, payload: nat, k: nat)
    requires from <= |s|
    requires SearchHead(s, from, ZEROS) == Some(k)
    requires k + payload + 4 <= |s| && s[k + payload..k + payload + 4] != TAIL
    ensures Decode(s, from, payload) == Decode(s, k + payload + 4, payload)
    ensures match Decode(s, from, payload)
      case Some((k', _)) => k' >= k + payload + 8
      case None => true
  {
    DecodeSound(s, k + payload + 4, payload);
  }
}
