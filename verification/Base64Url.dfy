/** base64url without padding, section 5 of RFC 4648, and the lenient decoder
    of Python's standard library that the adapters call. */
module Base64Url {
  import opened Wrappers

  type byte = b: int | 0 <= b < 256

  /** The URL-safe alphabet. */
  function Letter(i: nat): (c: char)
    requires i < 64
    ensures c != '.' && c != '=' && c as int < 128
    ensures ValueOf(c) == Some(i)
  {
    if i < 26 then ('A' as int + i) as char
    else if i < 52 then ('a' as int + i - 26) as char
    else if i < 62 then ('0' as int + i - 52) as char
    else if i == 62 then '-' else '_'
  }

  /** What a character stands for when decoding: '-' and '_' are mapped to '+'
      and '/' first, which are accepted as they are too. */
  function ValueOf(c: char): (v: Option<nat>)
    ensures v.Some? ==> v.value < 64
  {
    if 'A' <= c <= 'Z' then Some(c as int - 'A' as int)
    else if 'a' <= c <= 'z' then Some(c as int - 'a' as int + 26)
    else if '0' <= c <= '9' then Some(c as int - '0' as int + 52)
    else if c == '-' || c == '+' then Some(62)
    else if c == '_' || c == '/' then Some(63)
    else None
  }

  predicate IsAscii(text: string) {
    forall i | 0 <= i < |text| :: text[i] as int < 128
  }

  predicate IsSegment(text: string) {
    IsAscii(text) && '.' !in text
  }

  /** The letters of a full group of three bytes. */
  function Three(a: byte, b: byte, c: byte): (t: string)
    ensures |t| == 4 && IsSegment(t)
  {
    [Letter(a / 4), Letter(a % 4 * 16 + b / 16), Letter(b % 16 * 4 + c / 64), Letter(c % 64)]
  }

  /** The letters of two last bytes; the last one has two spare bits. */
  function Two(a: byte, b: byte, spare: nat): (t: string)
    requires spare < 4
    ensures |t| == 3 && IsSegment(t)
  {
    [Letter(a / 4), Letter(a % 4 * 16 + b / 16), Letter(b % 16 * 4 + spare)]
  }

  /** The letters of a single last byte; the last one has four spare bits. */
  function One(a: byte, spare: nat): (t: string)
    requires spare < 4
    ensures |t| == 2 && IsSegment(t)
  {
    [Letter(a / 4), Letter(a % 4 * 16 + spare)]
  }

  /** The encodings of `data` with the spare bits of the last letter set to
      `spare`; zero is the canonical one (section 3.5 of RFC 4648). */
  function EncodeSpare(data: seq<byte>, spare: nat): string
    requires spare < 4
  {
    if |data| == 0 then []
    else if |data| == 1 then One(data[0], spare)
    else if |data| == 2 then Two(data[0], data[1], spare)
    else Three(data[0], data[1], data[2]) + EncodeSpare(data[3..], spare)
  }

  /** `_b64url_encode`. */
  function Encode(data: seq<byte>): string {
    EncodeSpare(data, 0)
  }

  /** The decoder between two characters: position in the group of four, bits
      carried over, pads seen since the last letter, bytes so far, and whether
      padding has ended the input. */
  datatype Decoder = Decoder(quad: nat, left: nat, pads: nat, bytes: seq<byte>, done: bool) {
    ghost predicate Valid() {
      quad < 4 && left < (if quad == 1 then 64 else if quad == 2 then 16 else if quad == 3 then 4 else 1)
    }
  }

  const FRESH := Decoder(0, 0, 0, [], false)

  /** One character of `a2b_base64` in its default, lenient mode. */
  function Feed(d: Decoder, c: char): (r: Decoder)
    requires d.Valid()
    ensures r.Valid()
  {
    if d.done then d
    else if c == '=' then
      if d.quad >= 2 && d.quad + d.pads + 1 >= 4 then d.(done := true)
      else if d.quad >= 2 then d.(pads := d.pads + 1)
      else d
    else
      match ValueOf(c)
      case None => d
      case Some(v) =>
        if d.quad == 0 then Decoder(1, v, 0, d.bytes, false)
        else if d.quad == 1 then Decoder(2, v % 16, 0, d.bytes + [d.left * 4 + v / 16], false)
        else if d.quad == 2 then Decoder(3, v % 4, 0, d.bytes + [d.left * 16 + v / 4], false)
        else Decoder(0, 0, 0, d.bytes + [d.left * 64 + v], false)
  }

  function FeedAll(d: Decoder, text: string): (r: Decoder)
    requires d.Valid()
    ensures r.Valid()
    decreases |text|
  {
    if text == [] then d else FeedAll(Feed(d, text[0]), text[1..])
  }

  /** The padding that brings a length to a multiple of four. */
  function Padding(n: nat): string {
    var k := (4 - n % 4) % 4;
    seq(k, i => '=')
  }

  /** `_b64url_decode`; `None` stands for the exceptions it raises. */
  function Decode(text: string): Option<seq<byte>> {
    if !IsAscii(text) then None
    else
      var d := FeedAll(FRESH, text + Padding(|text|));
      if d.done || d.quad == 0 then Some(d.bytes) else None
  }

  lemma {:induction false} FeedConcat(d: Decoder, a: string, b: string)
    requires d.Valid()
    ensures FeedAll(d, a + b) == FeedAll(FeedAll(d, a), b)
    decreases |a|
  {
    if a == [] {
      assert a + b == b;
    } else {
      assert (a + b)[0] == a[0] && (a + b)[1..] == a[1..] + b;
      FeedConcat(Feed(d, a[0]), a[1..], b);
    }
  }

  /** Encoded text is ASCII without dots, and its length is never 1 mod 4. */
  lemma {:induction false} EncodeShape(data: seq<byte>, spare: nat)
    requires spare < 4
    ensures
      var t := EncodeSpare(data, spare);
      && IsSegment(t) && |t| % 4 != 1
      && |t| == |data| / 3 * 4 + (if |data| % 3 == 0 then 0 else |data| % 3 + 1)
    decreases |data|
  {
    hide Three, Two, One;
    if |data| >= 3 {
      EncodeShape(data[3..], spare);
    }
  }

  lemma FeedFour(d: Decoder, t: string)
    requires d.Valid() && |t| == 4
    ensures FeedAll(d, t) == Feed(Feed(Feed(Feed(d, t[0]), t[1]), t[2]), t[3])
  {
    hide Feed, Decoder.Valid;
    var d1 := Feed(d, t[0]);
    var d2 := Feed(d1, t[1]);
    var d3 := Feed(d2, t[2]);
    var d4 := Feed(d3, t[3]);
    assert FeedAll(d, t) == FeedAll(d1, t[1..]);
    assert t[1..][1..] == t[2..] && FeedAll(d1, t[1..]) == FeedAll(d2, t[2..]);
    assert t[2..][1..] == t[3..] && FeedAll(d2, t[2..]) == FeedAll(d3, t[3..]);
    assert t[3..][1..] == [] && FeedAll(d3, t[3..]) == FeedAll(d4, []);
  }

  /** Between two groups. */
  function At(bytes: seq<byte>): Decoder {
    Decoder(0, 0, 0, bytes, false)
  }

  /** A letter moves on by six bits. */
  lemma FeedLetter(d: Decoder, v: nat)
    requires d.Valid() && !d.done && v < 64
    ensures d.quad == 0 ==> Feed(d, Letter(v)) == Decoder(1, v, 0, d.bytes, false)
    ensures d.quad == 1 ==> Feed(d, Letter(v)) == Decoder(2, v % 16, 0, d.bytes + [d.left * 4 + v / 16], false)
    ensures d.quad == 2 ==> Feed(d, Letter(v)) == Decoder(3, v % 4, 0, d.bytes + [d.left * 16 + v / 4], false)
    ensures d.quad == 3 ==> Feed(d, Letter(v)) == Decoder(0, 0, 0, d.bytes + [d.left * 64 + v], false)
  {
    hide ValueOf;
    var c := Letter(v);
  }

  /** The first two letters give the first byte. */
  lemma FirstByte(bytes: seq<byte>, a: byte, high: nat)
    requires high < 16
    ensures Feed(Feed(At(bytes), Letter(a / 4)), Letter(a % 4 * 16 + high)) == Decoder(2, high, 0, bytes + [a], false)
  {
    hide Feed, Letter;
    FeedLetter(At(bytes), a / 4);
    FeedLetter(Decoder(1, a / 4, 0, bytes, false), a % 4 * 16 + high);
    assert (a % 4 * 16 + high) / 16 == a % 4;
  }

  /** The third letter gives the second byte. */
  lemma SecondByte(bytes: seq<byte>, b: byte, high: nat)
    requires high < 4
    ensures Feed(Decoder(2, b / 16, 0, bytes, false), Letter(b % 16 * 4 + high)) == Decoder(3, high, 0, bytes + [b], false)
  {
    hide Feed, Letter;
    FeedLetter(Decoder(2, b / 16, 0, bytes, false), b % 16 * 4 + high);
    assert (b % 16 * 4 + high) / 4 == b % 16;
  }

  lemma FeedThree(bytes: seq<byte>, a: byte, b: byte, c: byte)
    ensures FeedAll(At(bytes), Three(a, b, c)) == At(bytes + [a, b, c])
  {
    hide Feed, Letter, FeedAll;
    FeedFour(At(bytes), Three(a, b, c));
    FirstByte(bytes, a, b / 16);
    SecondByte(bytes + [a], b, c / 64);
    FeedLetter(Decoder(3, c / 64, 0, bytes + [a] + [b], false), c % 64);
    assert bytes + [a] + [b] + [c] == bytes + [a, b, c];
  }

  lemma FeedTwo(bytes: seq<byte>, a: byte, b: byte, spare: nat)
    requires spare < 4
    ensures var d := FeedAll(At(bytes), Two(a, b, spare) + "=");
      d.bytes == bytes + [a, b] && d.done
  {
    hide Letter, FeedAll;
    FeedFour(At(bytes), Two(a, b, spare) + "=");
    FirstByte(bytes, a, b / 16);
    SecondByte(bytes + [a], b, spare);
    assert bytes + [a] + [b] == bytes + [a, b];
  }

  lemma FeedOne(bytes: seq<byte>, a: byte, spare: nat)
    requires spare < 4
    ensures var d := FeedAll(At(bytes), One(a, spare) + "==");
      d.bytes == bytes + [a] && d.done
  {
    hide Letter, FeedAll;
    FeedFour(At(bytes), One(a, spare) + "==");
    FirstByte(bytes, a, spare);
  }

  /** Feeding encoded data with its padding between two groups appends exactly
      the data, whatever the spare bits are. */
  lemma {:induction false} FeedEncoded(bytes: seq<byte>, data: seq<byte>, spare: nat)
    requires spare < 4
    ensures
      var t := EncodeSpare(data, spare);
      var d := FeedAll(At(bytes), t + Padding(|t|));
      d.bytes == bytes + data && (d.done || d.quad == 0)
    decreases |data|
  {
    hide Three, Two, One, Feed;
    var t := EncodeSpare(data, spare);
    if |data| == 0 {
      assert t + Padding(0) == [];
    } else if |data| == 1 {
      hide FeedAll;
      assert Padding(2) == "==" && bytes + [data[0]] == bytes + data;
      FeedOne(bytes, data[0], spare);
    } else if |data| == 2 {
      hide FeedAll;
      assert Padding(3) == "=" && bytes + [data[0], data[1]] == bytes + data;
      FeedTwo(bytes, data[0], data[1], spare);
    } else {
      var group, rest := Three(data[0], data[1], data[2]), EncodeSpare(data[3..], spare);
      assert t == group + rest;
      hide FeedAll, EncodeSpare, Padding;
      FeedThree(bytes, data[0], data[1], data[2]);
      FeedEncoded(bytes + [data[0], data[1], data[2]], data[3..], spare);
      PaddingPeriod(|rest|);
      FeedConcat(At(bytes), group, rest + Padding(|rest|));
      assert group + (rest + Padding(|rest|)) == t + Padding(|t|);
      assert bytes + [data[0], data[1], data[2]] + data[3..] == bytes + data;
    }
  }

  lemma PaddingPeriod(n: nat)
    ensures Padding(n + 4) == Padding(n)
  {
    assert (n + 4) % 4 == n % 4;
  }

  /** Decoding ignores the spare bits. */
  lemma DecodeEncoded(data: seq<byte>, spare: nat)
    requires spare < 4
    ensures Decode(EncodeSpare(data, spare)) == Some(data)
  {
    hide Padding, FeedAll, EncodeSpare;
    EncodeShape(data, spare);
    FeedEncoded([], data, spare);
    assert [] + data == data;
  }

  /** Decoding what was encoded gives the data back. */
  lemma RoundTrip(data: seq<byte>)
    ensures Decode(Encode(data)) == Some(data)
    ensures IsSegment(Encode(data)) && |Encode(data)| % 4 != 1
  {
    DecodeEncoded(data, 0);
    EncodeShape(data, 0);
  }

  /** The encoding is canonical only up to the spare bits. */
  lemma {:induction false} SpareBitsDiffer(data: seq<byte>, spare: nat)
    requires 0 < spare < 4
    ensures EncodeSpare(data, spare) != Encode(data) <==> |data| % 3 != 0
    decreases |data|
  {
    hide Letter, Three;
    if |data| == 1 {
      LettersDiffer(data[0] % 4 * 16, data[0] % 4 * 16 + spare);
      assert One(data[0], spare)[1] != One(data[0], 0)[1];
    } else if |data| == 2 {
      LettersDiffer(data[1] % 16 * 4, data[1] % 16 * 4 + spare);
      assert Two(data[0], data[1], spare)[2] != Two(data[0], data[1], 0)[2];
    } else if |data| >= 3 {
      hide One, Two;
      SpareBitsDiffer(data[3..], spare);
      ConcatDiffer(Three(data[0], data[1], data[2]), EncodeSpare(data[3..], spare), Encode(data[3..]));
    }
  }

  lemma ConcatDiffer(a: string, b: string, c: string)
    ensures a + b == a + c <==> b == c
  {
    assert (a + b)[|a|..] == b && (a + c)[|a|..] == c;
  }

  lemma LettersDiffer(i: nat, j: nat)
    requires i < j < 64
    ensures Letter(i) != Letter(j)
  {
    hide ValueOf;
    assert ValueOf(Letter(i)) == Some(i) && ValueOf(Letter(j)) == Some(j);
  }

  // ----- what the decoder makes of any text -----

  /** The characters of a text that stand for six bits. */
  function Letters(text: string): (t: string)
    ensures |t| <= |text|
    ensures IsAscii(text) ==> IsAscii(t)
  {
    if text == [] then []
    else (if ValueOf(text[0]).Some? then [text[0]] else []) + Letters(text[1..])
  }

  lemma {:induction false} FeedLetters(d: Decoder, text: string)
    requires d.Valid() && '=' !in text
    ensures FeedAll(d, text) == FeedAll(d, Letters(text))
    decreases |text|
  {
    if text != [] {
      var rest := Letters(text[1..]);
      FeedLetters(Feed(d, text[0]), text[1..]);
      if ValueOf(text[0]).Some? {
        assert ([text[0]] + rest)[1..] == rest;
      } else {
        assert text[0] in text && Letters(text) == rest;
      }
    }
  }

  ghost predicate AllLetters(text: string) {
    forall i | 0 <= i < |text| :: ValueOf(text[i]).Some?
  }

  lemma {:induction false} LettersOnly(text: string)
    ensures AllLetters(Letters(text))
    ensures AllLetters(text) ==> Letters(text) == text
  {
    if text != [] {
      LettersOnly(text[1..]);
    }
  }

  /** After n letters the decoder is at place n mod 4 of a group and has read
      3 n / 4 bytes. */
  lemma {:induction false} FedLetters(text: string)
    requires AllLetters(text)
    ensures
      var d := FeedAll(FRESH, text);
      d.quad == |text| % 4 && !d.done && d.pads == 0 && |d.bytes| == |text| * 3 / 4
  {
    if text != [] {
      var n := |text| - 1;
      assert text == text[..n] + [text[n]];
      FedLetters(text[..n]);
      FeedConcat(FRESH, text[..n], [text[n]]);
      OneFed(FeedAll(FRESH, text[..n]), text[n], n);
    }
  }

  lemma OneFed(d: Decoder, c: char, n: nat)
    requires d.Valid() && ValueOf(c).Some? && d.quad == n % 4 && !d.done && d.pads == 0 && |d.bytes| == n * 3 / 4
    ensures
      var r := FeedAll(d, [c]);
      r.quad == (n + 1) % 4 && !r.done && r.pads == 0 && |r.bytes| == (n + 1) * 3 / 4
  {
    hide ValueOf;
    assert FeedAll(d, [c]) == FeedAll(Feed(d, c), []);
    PadIsNoLetter();
  }

  lemma PadIsNoLetter()
    ensures ValueOf('=') == None
  {
  }

  /** The padding completes a group of two or three letters if there is enough
      of it, and is ignored elsewhere. */
  lemma FedPadding(d: Decoder, n: nat)
    requires d.Valid() && !d.done && d.pads == 0
    ensures
      var r, pads := FeedAll(d, Padding(n)), |Padding(n)|;
      && r.bytes == d.bytes
      && (r.done || r.quad == 0 <==> d.quad == 0 || (d.quad == 2 && pads >= 2) || (d.quad == 3 && pads >= 1))
  {
    var d1 := Feed(d, '=');
    var d2 := Feed(d1, '=');
    var d3 := Feed(d2, '=');
    assert FeedAll(d, "=") == FeedAll(d1, "");
    assert FeedAll(d, "==") == FeedAll(d1, "=") == FeedAll(d2, "");
    assert FeedAll(d, "===") == FeedAll(d1, "==") == FeedAll(d2, "=") == FeedAll(d3, "");
    var k := |Padding(n)|;
    assert Padding(n) == if k == 0 then "" else if k == 1 then "=" else if k == 2 then "==" else "===";
  }

  /** Decoding, exactly, on every ASCII text without padding of its own: only the
      letters matter for the bytes, and with m letters beyond the last full
      group it fails if m = 1, or if the length of the text calls for fewer
      pads than the group lacks. */
  lemma DecodeExactly(text: string)
    requires IsAscii(text) && '=' !in text
    ensures
      var letters, m, pads := Letters(text), |Letters(text)| % 4, (4 - |text| % 4) % 4;
      && (Decode(text).Some? <==> m == 0 || (m == 2 && pads >= 2) || (m == 3 && pads >= 1))
      && (Decode(text).Some? ==> Decode(letters) == Decode(text) && |Decode(text).value| == |letters| * 3 / 4)
  {
    hide Padding, FeedAll, Letters;
    LettersOnly(text);
    var letters := Letters(text);
    FeedLetters(FRESH, text);
    FedLetters(letters);
    FeedConcat(FRESH, text, Padding(|text|));
    FeedConcat(FRESH, letters, Padding(|letters|));
    FedPadding(FeedAll(FRESH, letters), |text|);
    FedPadding(FeedAll(FRESH, letters), |letters|);
    PaddingSize(|text|);
    PaddingSize(|letters|);
  }

  lemma PaddingSize(n: nat)
    ensures |Padding(n)| == (4 - n % 4) % 4
  {
  }

  lemma {:induction false} FeedDone(d: Decoder, text: string)
    requires d.Valid() && d.done
    ensures FeedAll(d, text) == d
    decreases |text|
  {
    if text != [] {
      FeedDone(d, text[1..]);
    }
  }

  /** Padding that completes a group ends the input: what follows is ignored. */
  lemma PaddingEndsInput(data: seq<byte>, spare: nat, rest: string)
    requires spare < 4 && |data| % 3 != 0 && IsAscii(rest)
    ensures
      var t := EncodeSpare(data, spare);
      Decode(t + Padding(|t|) + rest) == Some(data)
  {
    hide FeedAll, EncodeSpare;
    var t := EncodeSpare(data, spare);
    var whole := t + Padding(|t|) + rest;
    EncodeShape(data, spare);
    FeedEncoded([], data, spare);
    assert [] + data == data;
    EndsDone(data, spare);
    FeedDone(FeedAll(FRESH, t + Padding(|t|)), rest + Padding(|whole|));
    FeedConcat(FRESH, t + Padding(|t|), rest + Padding(|whole|));
    assert t + Padding(|t|) + (rest + Padding(|whole|)) == whole + Padding(|whole|);
  }

  lemma {:induction false} LettersOfEncoding(data: seq<byte>, spare: nat)
    requires spare < 4
    ensures AllLetters(EncodeSpare(data, spare))
    decreases |data|
  {
    hide ValueOf;
    if |data| >= 3 {
      LettersOfEncoding(data[3..], spare);
    }
  }

  lemma EndsDone(data: seq<byte>, spare: nat)
    requires spare < 4 && |data| % 3 != 0
    ensures var t := EncodeSpare(data, spare); FeedAll(FRESH, t + Padding(|t|)).done
  {
    hide FeedAll, EncodeSpare, Padding;
    var t := EncodeSpare(data, spare);
    EncodeShape(data, spare);
    LettersOfEncoding(data, spare);
    FedLetters(t);
    FeedConcat(FRESH, t, Padding(|t|));
    FedPadding(FeedAll(FRESH, t), |t|);
    PaddingSize(|t|);
    StaysIn(FeedAll(FRESH, t), |t|);
  }

  /** Padding does not move on to the next group. */
  lemma StaysIn(d: Decoder, n: nat)
    requires d.Valid() && !d.done
    ensures FeedAll(d, Padding(n)).quad == d.quad
  {
    AllPads(d, Padding(n));
  }

  lemma {:induction false} AllPads(d: Decoder, pads: string)
    requires d.Valid() && forall i | 0 <= i < |pads| :: pads[i] == '='
    ensures FeedAll(d, pads).quad == d.quad
    decreases |pads|
  {
    if pads != [] {
      AllPads(Feed(d, pads[0]), pads[1..]);
    }
  }

  /** Vectors of section 10 of RFC 4648, unpadded, and one with the two letters
      in which the URL-safe alphabet differs. */
  lemma Vectors()
    ensures Encode([102]) == "Zg" && Encode([102, 111]) == "Zm8" && Encode([102, 111, 111]) == "Zm9v"
    ensures Encode([102, 111, 111, 98]) == "Zm9vYg"
    ensures Encode([251, 255, 191]) == "-_-_"
  {
    hide ValueOf;
    assert Three(102, 111, 111) == "Zm9v" && Three(251, 255, 191) == "-_-_";
    assert [102, 111, 111, 98][3..] == [98];
    assert EncodeSpare([98], 0) == "Yg";
  }
}
