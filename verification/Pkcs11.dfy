/** Decryption on a PKCS#11 token.  The last decrypted block is held back, since
    only the end of the stream tells whether it carries the padding. */
module Pkcs11 {
  import opened Bytes
  import opened Streams
  import opened PipelineSpec
  import opened Cbc

  // ----- What the updates of a history give -----

  /** The pieces are long enough to be taken. */
  ghost predicate Long(h: seq<seq<byte>>) {
    forall i :: 0 <= i < |h| ==> |h[i]| >= BLOCK
  }

  /** Everything decrypted but the last block. */
  function Shown(k: Key, s: seq<byte>): seq<byte> {
    var all := Plaintext(k, s);
    if |all| < BLOCK then [] else all[..|all| - BLOCK]
  }

  function HeldUpdate(k: Key, h: seq<seq<byte>>): Update {
    if h == [] || |h[|h| - 1]| < BLOCK then Refused(EFAULT)
    else
      var before, now := Shown(k, Concat(h[..|h| - 1])), Shown(k, Concat(h));
      if |before| <= |now| then Plain(now[|before|..]) else Refused(EFAULT)
  }

  function HeldFinal(k: Key, h: seq<seq<byte>>): Final {
    if h == [] then Denied(EINVAL)
    else if |Concat(h)| % 16 != 0 then Denied(EFAULT)
    else Close(Plaintext(k, Concat(h)))
  }

  function Close(text: seq<byte>): Final {
    if |text| < BLOCK then Denied(EFAULT) else CloseBlock(text[|text| - BLOCK..])
  }

  /** The last block without its padding, if it has one. */
  function CloseBlock(last: Block): Final {
    var p := last[BLOCK - 1];
    if p == 0 || p > BLOCK then Denied(EFAULT)
    else if exists i :: BLOCK - p <= i < BLOCK && last[i] != p then Denied(EINVAL)
    else Done(last[..BLOCK - p])
  }

  function HeldBack(k: Key): Cipher { Cipher(h => HeldUpdate(k, h), h => HeldFinal(k, h)) }

  lemma ShownGrows(k: Key, s: seq<byte>, t: seq<byte>)
    requires s <= t
    ensures Shown(k, s) <= Shown(k, t)
  {
    PlaintextPrefix(k, s, t);
  }

  lemma ConcatLast(h: seq<seq<byte>>)
    requires h != []
    ensures Concat(h) == Concat(h[..|h| - 1]) + h[|h| - 1]
  {
    ConcatSnoc(h[..|h| - 1], h[|h| - 1]);
    assert h == h[..|h| - 1] + [h[|h| - 1]];
  }

  /** The updates together give everything but the last block. */
  lemma {:induction false} OutsShown(k: Key, h: seq<seq<byte>>)
    requires Long(h)
    ensures Outs(HeldBack(k), h) == Shown(k, Concat(h))
  {
    if h != [] {
      var init := h[..|h| - 1];
      OutsShown(k, init);
      ConcatLast(h);
      ShownGrows(k, Concat(init), Concat(h));
    }
  }

  /** With the final call they give the text without its padding, and malformed
      padding is rejected. */
  lemma Whole(k: Key, h: seq<seq<byte>>)
    requires Long(h) && h != [] && |Concat(h)| % 16 == 0
    ensures var text := Plaintext(k, Concat(h));
      if Padded(text) then HeldFinal(k, h).Done? && Outs(HeldBack(k), h) + HeldFinal(k, h).bytes == Unpad(text)
      else HeldFinal(k, h).Denied?
  {
    OutsShown(k, h);
    ConcatLast(h);
    var text := Plaintext(k, Concat(h));
    CloseMeans(text);
  }

  lemma CloseMeans(text: seq<byte>)
    requires |text| >= BLOCK
    ensures if Padded(text) then Close(text).Done? && text[..|text| - BLOCK] + Close(text).bytes == Unpad(text)
            else Close(text).Denied?
  {
    var last := text[|text| - BLOCK..];
    var p := last[BLOCK - 1];
    if Padded(text) {
      assert forall i :: BLOCK - p <= i < BLOCK ==> last[i] == text[|text| - BLOCK + i];
      assert text[..|text| - BLOCK] + last[..BLOCK - p] == text[..|text| - p];
    } else if 1 <= p <= BLOCK {
      var i :| |text| - p <= i < |text| && text[i] != p;
      assert last[i - (|text| - BLOCK)] != p;
    }
  }

  // ----- The token and the context -----

  /** A decryption session: it gives every full block as soon as it has it. */
  class Token {
    const key: Key
    const reliable: bool
    var fed: seq<byte>

    constructor (key: Key, reliable: bool)
      ensures this.key == key && this.reliable == reliable && fed == []
    {
      this.key, this.reliable, fed := key, reliable, [];
    }

    method DecryptUpdate(piece: seq<byte>) returns (ok: bool, out: seq<byte>)
      modifies this
      ensures fed == old(fed) + piece
      ensures Plaintext(key, old(fed)) <= Plaintext(key, fed)
      ensures ok ==> Plaintext(key, fed) == Plaintext(key, old(fed)) + out
      ensures reliable ==> ok
    {
      ghost var before := fed;
      var given := Plaintext(key, fed);
      fed := fed + piece;
      PlaintextPrefix(key, before, fed);
      out := Plaintext(key, fed)[|given|..];
      if {
        case true => ok := true;
        case !reliable => ok := false;
      }
    }

    /** Nothing more comes out, and a partial block is an error. */
    method DecryptFinal() returns (ok: bool)
      ensures ok ==> |fed| % 16 == 0
      ensures reliable && |fed| % 16 == 0 ==> ok
    {
      ok := |fed| % 16 == 0;
      if {
        case true =>
        case !reliable => ok := false;
      }
    }
  }

  class Context {
    const token: Token
    var last: seq<byte>
    var first: bool
    var iv: seq<byte>
    ghost var h: seq<seq<byte>>

    constructor (token: Token)
      requires token.fed == []
      ensures Valid() && this.token == token && first && h == []
    {
      this.token, last, first, iv, h := token, Repeat(16, 16), true, token.key.iv, [];
    }

    /** What was shown and the block held back make up what is decrypted. */
    ghost predicate Valid()
      reads this, token
    {
      && Long(h) && token.fed == Concat(h) && (first <==> h == [])
      && |last| == BLOCK
      && (!first ==> Shown(token.key, token.fed) + last == Plaintext(token.key, token.fed))
    }

    method Update(cryptbuf: seq<byte>) returns (ret: int, out: seq<byte>)
      requires Valid()
      modifies this, token
      ensures ret == 0 ==> Valid() && h == old(h) + [cryptbuf] && HeldUpdate(token.key, h) == Plain(out)
      ensures ret == 0 ==> iv == cryptbuf[|cryptbuf| - 16..]
      ensures ret < 0 ==> ret == -EFAULT && (|cryptbuf| < BLOCK || !token.reliable)
      ensures ret <= 0
    {
      if |cryptbuf| < BLOCK {
        return -EFAULT, [];
      }
      ghost var before := token.fed;
      var head;
      if first {
        first, head := false, [];
      } else {
        head := last;
      }
      var ok, buf := token.DecryptUpdate(cryptbuf);
      if !ok {
        return -EFAULT, [];
      }
      HoldBack(token.key, h, cryptbuf, head, buf);
      out := head + buf[..|buf| - BLOCK];
      last := buf[|buf| - BLOCK..];
      iv := cryptbuf[|cryptbuf| - BLOCK..];
      h := h + [cryptbuf];
      ret := 0;
    }

    /** The closing call: the block held back, less its padding. */
    method Final() returns (ret: int, out: seq<byte>)
      requires Valid()
      ensures ret <= 0
      ensures ret == 0 ==> HeldFinal(token.key, h) == Done(out)
      ensures token.reliable && HeldFinal(token.key, h).Done? ==> ret == 0
      ensures token.reliable && ret < 0 ==>
              HeldFinal(token.key, h).Denied? && ret == 0 - HeldFinal(token.key, h).code as int
    {
      if first {
        return -EINVAL, [];
      }
      var ok := token.DecryptFinal();
      if !ok {
        return -EFAULT, [];
      }
      LastBlock(token.key, token.fed, last);
      hide Plaintext, CloseBlock, Shown;
      ret, out := RemovePadding(last);
    }
  }

  lemma LastBlock(k: Key, s: seq<byte>, last: Block)
    requires Shown(k, s) + last == Plaintext(k, s)
    ensures Close(Plaintext(k, s)) == CloseBlock(last)
  {
    hide Plaintext, CloseBlock;
    assert Plaintext(k, s)[|Plaintext(k, s)| - BLOCK..] == last;
  }

  method RemovePadding(last: Block) returns (ret: int, out: seq<byte>)
    ensures ret <= 0
    ensures ret == 0 ==> CloseBlock(last) == Done(out)
    ensures ret < 0 ==> CloseBlock(last).Denied? && ret == 0 - CloseBlock(last).code as int
  {
    var p := last[BLOCK - 1];
    if p <= 0 || p > BLOCK {
      return -EFAULT, [];
    }
    for i := 0 to p
      invariant forall j :: BLOCK - i <= j < BLOCK ==> last[j] == p
    {
      if last[BLOCK - 1 - i] != p {
        return -EINVAL, [];
      }
    }
    ret, out := 0, last[..BLOCK - p];
  }

  lemma HoldBack(k: Key, h: seq<seq<byte>>, piece: seq<byte>, head: seq<byte>, buf: seq<byte>)
    requires Long(h) && |piece| >= BLOCK
    requires h == [] ==> head == []
    requires h != [] ==> |head| == BLOCK && Shown(k, Concat(h)) + head == Plaintext(k, Concat(h))
    requires Plaintext(k, Concat(h) + piece) == Plaintext(k, Concat(h)) + buf
    ensures |buf| >= BLOCK && Long(h + [piece]) && Concat(h + [piece]) == Concat(h) + piece
    ensures HeldUpdate(k, h + [piece]) == Plain(head + buf[..|buf| - BLOCK])
    ensures Shown(k, Concat(h) + piece) + buf[|buf| - BLOCK..] == Plaintext(k, Concat(h) + piece)
  {
    hide Plaintext;
    ConcatSnoc(h, piece);
    var before, all := Plaintext(k, Concat(h)), Plaintext(k, Concat(h) + piece);
    LongPiece(|Concat(h)|, |piece|);
    assert (h + [piece])[..|h|] == h;
    Keep(Shown(k, Concat(h)), head, before, buf, all);
  }

  lemma LongPiece(a: nat, b: nat)
    requires b >= 16
    ensures (a + b) - (a + b) % 16 >= a - a % 16 + 16
  {
  }

  lemma Keep(shown: seq<byte>, head: seq<byte>, before: seq<byte>, buf: seq<byte>, all: seq<byte>)
    requires shown + head == before && all == before + buf && |buf| >= BLOCK
    ensures all[..|all| - BLOCK][|shown|..] == head + buf[..|buf| - BLOCK]
    ensures all[..|all| - BLOCK] + buf[|buf| - BLOCK..] == all
  {
  }

  /** A whole decryption, for any split of the ciphertext into pieces: it succeeds
      just when the plaintext is padded as it should, and gives it without padding. */
  method DecryptPieces(key: Key, pieces: seq<seq<byte>>) returns (ret: int, out: seq<byte>)
    ensures pieces == [] ==> ret == -EINVAL
    ensures ret == 0 ==> Long(pieces) && |Concat(pieces)| % 16 == 0
    ensures ret == 0 ==> Padded(Plaintext(key, Concat(pieces))) && out == Unpad(Plaintext(key, Concat(pieces)))
    ensures pieces != [] && Long(pieces) && |Concat(pieces)| % 16 == 0 && Padded(Plaintext(key, Concat(pieces))) ==>
            ret == 0
  {
    hide Plaintext, HeldUpdate, HeldFinal;
    var token := new Token(key, true);
    var ctx := new Context(token);
    out := [];
    for i := 0 to |pieces|
      invariant ctx.Valid() && ctx.token == token && token.reliable && token.key == key && ctx.h == pieces[..i]
      invariant out == Outs(HeldBack(key), pieces[..i])
    {
      var more;
      ret, more := ctx.Update(pieces[i]);
      if ret < 0 {
        return;
      }
      assert pieces[..i + 1] == pieces[..i] + [pieces[i]];
      OutsSnoc(HeldBack(key), pieces[..i], pieces[i]);
      out := out + more;
    }
    assert pieces[..|pieces|] == pieces;
    var tail;
    ret, tail := ctx.Final();
    FinalMeans(key, pieces);
    out := out + tail;
  }

  lemma FinalMeans(k: Key, h: seq<seq<byte>>)
    requires Long(h)
    ensures h == [] ==> HeldFinal(k, h) == Denied(EINVAL)
    ensures HeldFinal(k, h).Done? <==> h != [] && |Concat(h)| % 16 == 0 && Padded(Plaintext(k, Concat(h)))
    ensures HeldFinal(k, h).Done? ==> Outs(HeldBack(k), h) + HeldFinal(k, h).bytes == Unpad(Plaintext(k, Concat(h)))
  {
    if h != [] && |Concat(h)| % 16 == 0 {
      Whole(k, h);
    }
  }
}
