/** The packet writer `scpacket`: a fixed buffer of words with a write position, a tag write position and
    the place of the current message's size. A method that returns `ok == false` has thrown the overflow
    exception. */
module ScPackets {
  import opened Osc

  class ScPacket {
    const buf: array<Byte>
    const endpos: nat // in words
    var wrpos: nat    // in words
    var msgsizepos: nat
    var tagwrpos: nat // in bytes
    var inbundle: nat

    ghost predicate Valid()
      reads this
    {
      buf.Length == 4 * endpos && wrpos <= endpos
    }

    /** The packet's bytes so far: data() with size(). */
    ghost function Written(): Bytes
      requires Valid()
      reads this, buf
    {
      buf[..4 * wrpos]
    }

    /** An empty packet; the buffer holds whatever it holds. */
    constructor (maxPacketSize: nat, junk: Byte)
      ensures Valid() && fresh(buf) && endpos == maxPacketSize / 4 && wrpos == 0 && inbundle == 0 && Written() == []
      ensures forall i :: 0 <= i < buf.Length ==> buf[i] == junk
    {
      endpos := maxPacketSize / 4;
      buf := new Byte[4 * (maxPacketSize / 4)](_ => junk);
      wrpos, msgsizepos, tagwrpos, inbundle := 0, 0, 0, 0;
    }

    /** Stores the big-endian bytes of a value at a word. */
    method PutWord(pos: nat, w: int)
      requires Valid() && pos < endpos
      modifies buf
      ensures buf[..] == Splice(old(buf[..]), 4 * pos, BE32(w))
    {
      var b := BE32(w);
      buf[4 * pos], buf[4 * pos + 1], buf[4 * pos + 2], buf[4 * pos + 3] := b[0], b[1], b[2], b[3];
    }

    /** memcpy into the buffer. */
    method CopyBytes(at: nat, src: Bytes)
      requires Valid() && at + |src| <= buf.Length
      modifies buf
      ensures buf[..] == Splice(old(buf[..]), at, src)
    {
      hide Splice;
      assert buf[..] == Splice(buf[..], at, src[..0]) by { SpliceNone(buf[..], at); }
      for k := 0 to |src|
        invariant buf[..] == Splice(old(buf[..]), at, src[..k])
      {
        SpliceStep(old(buf[..]), at, src, k);
        buf[at + k] := src[k];
      }
      assert src[..|src|] == src;
    }

    method AddI(i: int) returns (ok: bool)
      requires Valid()
      modifies this`wrpos, buf
      ensures Valid() && (ok <==> old(wrpos) < endpos)
      ensures ok ==> wrpos == old(wrpos) + 1 && Written() == old(Written()) + BE32(i)
      ensures !ok ==> wrpos == old(wrpos) && buf[..] == old(buf[..])
    {
      if wrpos >= endpos { return false; }
      PutWord(wrpos, i);
      wrpos := wrpos + 1;
      SpliceEnd(old(buf[..]), 4 * old(wrpos), BE32(i));
      return true;
    }

    /** The two halves of a 64-bit integer; a packet with one free word is left with the first half. */
    method AddII(ii: int) returns (ok: bool)
      requires Valid()
      modifies this`wrpos, buf
      ensures Valid() && (ok <==> old(wrpos) + 2 <= endpos)
      ensures ok ==> wrpos == old(wrpos) + 2 && Written() == old(Written()) + BE64(ii)
      ensures !ok ==> Written() == old(Written()) + (if old(wrpos) < endpos then BE32(ii / WORD) else [])
    {
      ok := AddI(ii / WORD);
      if !ok { return; }
      ok := AddI(ii);
    }

    /** The two halves of a double's bits. The check is for one word only, so the source demands of its
        callers that a packet with a free word has two. */
    method AddD(bits: int) returns (ok: bool)
      requires Valid() && wrpos + 1 != endpos
      modifies this`wrpos, buf
      ensures Valid() && (ok <==> old(wrpos) + 2 <= endpos)
      ensures ok ==> wrpos == old(wrpos) + 2 && Written() == old(Written()) + BE64(bits)
      ensures !ok ==> wrpos == old(wrpos) && buf[..] == old(buf[..])
    {
      if wrpos >= endpos { return false; }
      PutWord(wrpos, bits / WORD);
      wrpos := wrpos + 1;
      SpliceEnd(old(buf[..]), 4 * old(wrpos), BE32(bits / WORD));
      ghost var mid := buf[..];
      PutWord(wrpos, bits);
      wrpos := wrpos + 1;
      SpliceEnd(mid, 4 * (wrpos - 1), BE32(bits));
      return true;
    }

    /** AddS: a C string with its terminating NUL, zero-padded to words. */
    method AddS(src: Bytes) returns (ok: bool)
      requires Valid()
      modifies this`wrpos, buf
      ensures Valid() && (ok <==> 4 * old(wrpos) + |OscString(src)| <= buf.Length)
      ensures ok ==> 4 * wrpos == 4 * old(wrpos) + |OscString(src)| && Written() == old(Written()) + OscString(src)
      ensures !ok ==> wrpos == old(wrpos) && buf[..] == old(buf[..])
    {
      hide BE32, OscString;
      var len4 := (|src| + 4) / 4;
      StringLength(src);
      if wrpos + len4 > endpos { return false; }
      PutWord(wrpos + len4 - 1, 0);
      CopyBytes(4 * wrpos, src);
      PaddedString(old(buf[..]), 4 * wrpos, len4, src);
      wrpos := wrpos + len4;
      return true;
    }

    /** AddSSlPre: the same with a slash in front. */
    method AddSSlPre(src: Bytes) returns (ok: bool)
      requires Valid()
      modifies this`wrpos, buf
      ensures Valid() && (ok <==> 4 * old(wrpos) + |OscString([47] + src)| <= buf.Length)
      ensures ok ==>
        4 * wrpos == 4 * old(wrpos) + |OscString([47] + src)| && Written() == old(Written()) + OscString([47] + src)
      ensures !ok ==> wrpos == old(wrpos) && buf[..] == old(buf[..])
    {
      hide BE32, OscString;
      var len4 := (|src| + 5) / 4;
      StringLength([47] + src);
      if wrpos + len4 > endpos { return false; }
      PutWord(wrpos + len4 - 1, 0);
      ghost var cleared := buf[..];
      buf[4 * wrpos] := 47;
      CopyBytes(4 * wrpos + 1, src);
      SpliceTwice(cleared, 4 * wrpos, 47, src);
      PaddedString(old(buf[..]), 4 * wrpos, len4, [47] + src);
      wrpos := wrpos + len4;
      return true;
    }

    /** AddB: the size of a blob and its data; the pad bytes after the data are not written. The word
        cleared before the size goes in is overwritten again, unless the blob is empty: then it is the
        last word of what was written before. */
    method AddB(src: Bytes) returns (ok: bool)
      requires Valid() && (src == [] ==> wrpos > 0)
      modifies this`wrpos, buf
      ensures Valid() && (ok <==> 4 * old(wrpos) + 4 + Round4(|src|) <= buf.Length)
      ensures ok ==> 4 * wrpos == 4 * old(wrpos) + 4 + Round4(|src|)
      ensures ok && src != [] ==> Written()[..4 * old(wrpos)] == old(Written())
      ensures ok && src != [] && |src| < 0x8000_0000 ==> EncodesArg(Written()[4 * old(wrpos)..], B(src))
      ensures ok && src == [] ==> Written() == old(Written())[..4 * old(wrpos) - 4] + [0, 0, 0, 0] + BE32(0)
      ensures !ok ==> wrpos == old(wrpos) && buf[..] == old(buf[..])
    {
      hide BE32, EncodesArg, Round4, Splice;
      RoundWords(|src|);
      var len4 := (|src| + 3) / 4;
      if wrpos + (len4 + 1) > endpos { return false; }
      PutBlob(len4, src);
      BlobWritten(old(buf[..]), 4 * wrpos, len4, src);
      wrpos := wrpos + (len4 + 1);
      return true;
    }

    /** Clears a word, stores the size and copies the data of a blob at the write position. */
    method PutBlob(len4: nat, src: Bytes)
      requires Valid() && |src| <= 4 * len4 && wrpos + len4 + 1 <= endpos && wrpos + len4 > 0
      modifies buf
      ensures buf[..] == Splice(Splice(Splice(old(buf[..]), 4 * (wrpos + len4 - 1), BE32(0)), 4 * wrpos, BE32(|src|)),
                                4 * wrpos + 4, src)
    {
      hide BE32, Splice;
      PutWord(wrpos + len4 - 1, 0);
      PutWord(wrpos, |src|);
      CopyBytes(4 * wrpos + 4, src);
    }

    /** AddTag: the next tag character. */
    method AddTag(c: Byte)
      requires Valid() && tagwrpos < 4 * wrpos
      modifies this`tagwrpos, buf
      ensures Valid() && tagwrpos == old(tagwrpos) + 1
      ensures Written() == old(Written())[old(tagwrpos) := c]
    {
      buf[tagwrpos] := c;
      tagwrpos := tagwrpos + 1;
    }

    /** MakeTags: room for n tags and a NUL; only the last word is cleared. */
    method MakeTags(n: nat) returns (ok: bool)
      requires Valid()
      modifies this`wrpos, this`tagwrpos, buf
      ensures Valid() && tagwrpos == 4 * old(wrpos) && (ok <==> old(wrpos) + (n + 4) / 4 <= endpos)
      ensures ok ==> wrpos == old(wrpos) + (n + 4) / 4 && Written()[..4 * old(wrpos)] == old(Written())
      ensures ok ==> forall i :: 4 * wrpos - 4 <= i < 4 * wrpos ==> Written()[i] == 0
      ensures ok ==> forall i :: 4 * old(wrpos) <= i < 4 * wrpos - 4 ==> Written()[i] == old(buf[i])
      ensures !ok ==> wrpos == old(wrpos) && buf[..] == old(buf[..])
    {
      var size4 := (n + 4) / 4;
      tagwrpos := 4 * wrpos;
      if wrpos + size4 > endpos { return false; }
      wrpos := wrpos + size4;
      PutWord(wrpos - 1, 0);
      ZeroWord();
      return true;
    }

    method OpenBundle(time: int) returns (ok: bool)
      requires Valid()
      modifies this`wrpos, this`inbundle, buf
      ensures Valid() && inbundle == old(inbundle) + 1 && (ok <==> old(wrpos) + 4 <= endpos)
      ensures ok ==> wrpos == old(wrpos) + 4 && Written() == old(Written()) + OscString(BUNDLE) + BE64(time)
    {
      inbundle := inbundle + 1;
      ok := AddS(BUNDLE);
      if !ok { return; }
      ok := AddII(time);
    }

    method CloseBundle()
      requires Valid()
      modifies this`inbundle
      ensures Valid() && inbundle == (if old(inbundle) > 0 then old(inbundle) - 1 else 0)
    {
      if inbundle != 0 { inbundle := inbundle - 1; }
    }

    method BeginMsg() returns (ok: bool)
      requires Valid()
      modifies this`wrpos, this`msgsizepos, buf
      ensures Valid() && (ok <==> inbundle == 0 || old(wrpos) < endpos)
      ensures ok && inbundle > 0 ==>
        msgsizepos == old(wrpos) && wrpos == old(wrpos) + 1 && Written() == old(Written()) + BE32(0)
      ensures !ok || inbundle == 0 ==> wrpos == old(wrpos) && buf[..] == old(buf[..])
    {
      if inbundle != 0 {
        msgsizepos := wrpos;
        ok := AddI(0);
      } else {
        ok := true;
      }
    }

    /** EndMsg: puts the size of what followed BeginMsg in the word left for it. */
    method EndMsg()
      requires Valid() && (inbundle > 0 ==> msgsizepos < wrpos)
      modifies buf
      ensures Valid()
      ensures inbundle == 0 ==> buf[..] == old(buf[..])
      ensures inbundle > 0 ==> var s := 4 * msgsizepos;
        Written() == old(Written())[..s] + BE32(4 * wrpos - s - 4) + old(Written())[s + 4..]
    {
      if inbundle != 0 {
        PutWord(msgsizepos, ((wrpos - msgsizepos) - 1) * 4);
      }
    }
  }

  /** b with the bytes from `at` on replaced by c. */
  ghost function Splice(b: Bytes, at: nat, c: Bytes): (r: Bytes)
    requires at + |c| <= |b|
    ensures |r| == |b|
  {
    b[..at] + c + b[at + |c|..]
  }

  lemma SpliceNone(b: Bytes, at: nat)
    requires at <= |b|
    ensures Splice(b, at, []) == b
  {
  }

  lemma SpliceStep(b: Bytes, at: nat, c: Bytes, k: nat)
    requires k < |c| && at + |c| <= |b|
    ensures Splice(b, at, c[..k])[at + k := c[k]] == Splice(b, at, c[..k + 1])
  {
  }

  lemma SpliceEnd(b: Bytes, at: nat, c: Bytes)
    requires at + |c| <= |b|
    ensures Splice(b, at, c)[..at + |c|] == b[..at] + c
  {
  }

  lemma SpliceTwice(b: Bytes, at: nat, x: Byte, c: Bytes)
    requires at + 1 + |c| <= |b|
    ensures Splice(b[at := x], at + 1, c) == Splice(b, at, [x] + c)
  {
  }

  /** Clearing the last word and copying the characters leaves a padded string. */
  lemma PaddedString(b: Bytes, at: nat, words: nat, s: Bytes)
    requires words == (|s| + 4) / 4 && at + 4 * words <= |b|
    ensures Splice(Splice(b, at + 4 * words - 4, BE32(0)), at, s)[..at + 4 * words] == b[..at] + OscString(s)
  {
    hide BE32;
    ZeroWord();
    StringLength(s);
    var n := 4 * words;
    assert |s| < n <= |s| + 4;
    var c := Splice(b, at + n - 4, [0, 0, 0, 0]);
    var r := Splice(c, at, s)[..at + n];
    assert forall i :: at + |s| <= i < at + n ==> r[i] == c[i] == 0;
    assert r == b[..at] + OscString(s);
  }

  /** What AddB leaves in the buffer. */
  lemma BlobWritten(b: Bytes, at: nat, words: nat, s: Bytes)
    requires words == (|s| + 3) / 4 && at + 4 + 4 * words <= |b| && (s == [] ==> at >= 4)
    ensures
      var sized := Splice(Splice(b, at + 4 * words - 4, BE32(0)), at, BE32(|s|));
      var w := Splice(sized, at + 4, s)[..at + 4 + 4 * words];
      && (s != [] ==> w[..at] == b[..at] && EncodesArg(w[at..], B(s)))
      && (s == [] ==> w == b[..at - 4] + [0, 0, 0, 0] + BE32(0))
  {
    hide BE32;
    ZeroWord();
    assert |s| <= 4 * words;
    var c, z := Splice(b, at + 4 * words - 4, BE32(0)), BE32(|s|);
    var sized := Splice(c, at, z);
    var w := Splice(sized, at + 4, s)[..at + 4 + 4 * words];
    assert |sized| == |c| == |b|;
    if s != [] {
      assert words >= 1 && c[..at] == b[..at];
      assert sized[..at] == b[..at] && sized[at..at + 4] == z;
      assert forall i :: 0 <= i < at + 4 ==> w[i] == sized[i];
      assert w[..at] == sized[..at];
      assert forall i :: 0 <= i < 4 ==> w[at..][i] == sized[at..at + 4][i];
      assert w[at..][..4] == z;
      assert |s| <= 4 * words && at + 4 + |s| <= |w|;
      assert w[at + 4..at + 4 + |s|] == s;
      assert w[at..][4..4 + |s|] == w[at + 4..at + 4 + |s|];
    } else {
      assert words == 0 && c[..at] == b[..at - 4] + [0, 0, 0, 0];
      assert sized[..at + 4] == c[..at] + z;
      assert w == sized[..at + 4];
    }
  }

  lemma RoundWords(n: nat)
    ensures Round4(n) == 4 * ((n + 3) / 4) && Round4(n) >= n
  {
  }

  lemma ZeroWord()
    ensures BE32(0) == [0, 0, 0, 0]
  {
  }
}
