/** Redis stream ids: the pair (milliseconds, sequence number), its order, and
    the text form "<ms>-<seq>" on which the pagination cursor is advanced. */
module StreamIds {
  import opened Wrappers
  import Decimal

  datatype StreamId = StreamId(ms: nat, seqNo: nat)

  predicate Leq(a: StreamId, b: StreamId) {
    a.ms < b.ms || (a.ms == b.ms && a.seqNo <= b.seqNo)
  }

  predicate Less(a: StreamId, b: StreamId) {
    Leq(a, b) && a != b
  }

  /** The id the group starts from when it is created at id "0". */
  const ORIGIN := StreamId(0, 0)

  function Next(id: StreamId): StreamId {
    StreamId(id.ms, id.seqNo + 1)
  }

  function Render(id: StreamId): string {
    Decimal.FromNat(id.ms) + "-" + Decimal.FromNat(id.seqNo)
  }

  // ----- the text-level successor -----

  /** Position of the first '-' at or after `from`, or |s|. */
  function FirstDash(s: string, from: nat := 0): (k: nat)
    requires from <= |s|
    ensures from <= k <= |s|
    ensures k < |s| ==> s[k] == '-'
    ensures forall i | from <= i < k :: s[i] != '-'
    decreases |s| - from
  {
    if from == |s| || s[from] == '-' then from else FirstDash(s, from + 1)
  }

  /** What is asked of Python's `int`: it reads back what `str` prints. Which
      other texts it takes (blanks, signs, other scripts' digits) is left open;
      `None` is its `ValueError`. */
  ghost predicate ReadsPrinted(parse: string -> Option<int>) {
    forall z: int :: parse(Decimal.FromInt(z)) == Some(z)
  }

  /** One such reader: ASCII blanks, an optional sign, grouped ASCII digits. */
  lemma AsciiReadsPrinted()
    ensures ReadsPrinted(Decimal.ParseInt)
  {
    forall z: int ensures Decimal.ParseInt(Decimal.FromInt(z)) == Some(z) {
      Decimal.IntRoundTrip(z);
    }
  }

  /** `_next_stream_id`: add one to the part after the first dash; a text that
      has no dash, or no integer after it, is returned unchanged. */
  function NextStreamId(streamId: string, parse: string -> Option<int>): string {
    var k := FirstDash(streamId);
    if k == |streamId| then streamId else Bump(streamId[..k], streamId[k + 1..], parse)
  }

  function Bump(ms: string, seqNo: string, parse: string -> Option<int>): string {
    match parse(seqNo)
    case None => ms + "-" + seqNo
    case Some(n) => ms + "-" + Decimal.FromInt(n + 1)
  }

  lemma RenderSplits(id: StreamId)
    ensures FirstDash(Render(id)) == |Decimal.FromNat(id.ms)|
  {
    var ms := Decimal.FromNat(id.ms);
    assert Render(id)[|ms|] == '-';
    assert forall i | 0 <= i < |ms| :: Render(id)[i] == ms[i] && Decimal.IsDigit(ms[i]);
  }

  /** Distinct ids print differently, so comparing cursors as text is
      comparing them as ids. */
  lemma RenderInjective(a: StreamId, b: StreamId)
    requires Render(a) == Render(b)
    ensures a == b
  {
    RenderSplits(a);
    RenderSplits(b);
    Suffix(Decimal.FromNat(a.ms), "-", Decimal.FromNat(a.seqNo));
    Suffix(Decimal.FromNat(b.ms), "-", Decimal.FromNat(b.seqNo));
    Decimal.FromNatInjective(a.ms, b.ms);
    Decimal.FromNatInjective(a.seqNo, b.seqNo);
  }

  /** On a well-formed id the text-level successor is the least id above it. */
  lemma NextStreamIdIsSuccessor(id: StreamId, parse: string -> Option<int>)
    requires ReadsPrinted(parse)
    ensures NextStreamId(Render(id), parse) == Render(Next(id))
    ensures forall x :: Less(id, x) <==> Leq(Next(id), x)
  {
    RenderSplits(id);
    Suffix(Decimal.FromNat(id.ms), "-", Decimal.FromNat(id.seqNo));
    assert parse(Decimal.FromInt(id.seqNo)) == Some(id.seqNo);
  }

  /** The successor differs from its argument exactly when the text has an
      integer after its first dash; this is when the cursor advances. */
  lemma NextStreamIdStuck(s: string, parse: string -> Option<int>)
    requires ReadsPrinted(parse)
    ensures NextStreamId(s, parse) == s <==> FirstDash(s) == |s| || parse(s[FirstDash(s) + 1..]) == None
  {
    hide Decimal.FromInt;
    var k := FirstDash(s);
    if k < |s| {
      BumpStuck(s[..k], s[k + 1..], parse);
      SplitAt(s, k);
    }
  }

  lemma SplitAt(s: string, k: nat)
    requires k < |s| && s[k] == '-'
    ensures s == s[..k] + "-" + s[k + 1..]
  {
  }

  lemma BumpStuck(ms: string, text: string, parse: string -> Option<int>)
    requires ReadsPrinted(parse)
    ensures Bump(ms, text, parse) == ms + "-" + text <==> parse(text) == None
  {
    hide Decimal.FromInt;
    match parse(text)
    case None =>
    case Some(n) =>
      assert parse(Decimal.FromInt(n + 1)) == Some(n + 1);
      TailsDiffer(ms, Decimal.FromInt(n + 1), text);
  }

  lemma NextIsSuccessor(id: StreamId)
    ensures forall x :: Less(id, x) <==> Leq(Next(id), x)
  {
  }

  lemma TailsDiffer(a: string, b: string, c: string)
    requires b != c
    ensures a + "-" + b != a + "-" + c
  {
    Suffix(a, "-", b);
    Suffix(a, "-", c);
  }

  lemma Suffix(a: string, b: string, c: string)
    ensures (a + b + c)[|a| + |b|..] == c
    ensures (a + b + c)[..|a|] == a
  {
  }

  // ----- ascending enumeration of a finite set of ids -----

  ghost predicate Ascending(ids: seq<StreamId>) {
    forall i, j {:trigger Less(ids[i], ids[j])} | 0 <= i < j < |ids| :: Less(ids[i], ids[j])
  }

  lemma LeastExists(s: set<StreamId>)
    requires s != {}
    ensures exists m :: m in s && forall x | x in s :: Leq(m, x)
  {
    var y :| y in s;
    if s != {y} {
      LeastExists(s - {y});
      var m :| m in s - {y} && forall x | x in s - {y} :: Leq(m, x);
      if Leq(m, y) {
        assert forall x | x in s :: Leq(m, x);
      } else {
        assert y in s && forall x | x in s :: Leq(y, x) by {
          forall x | x in s ensures Leq(y, x) {
            if x != y { assert x in s - {y}; }
          }
        }
      }
    }
  }

  function Least(s: set<StreamId>): (m: StreamId)
    requires s != {}
    ensures m in s && forall x | x in s :: Leq(m, x)
  {
    LeastExists(s);
    var m :| m in s && forall x | x in s :: Leq(m, x);
    m
  }

  /** The elements of `s`, smallest first. */
  function Enumerate(s: set<StreamId>): (ids: seq<StreamId>)
    ensures Ascending(ids)
    ensures forall x :: x in ids <==> x in s
    ensures |ids| == |s|
  {
    if s == {} then []
    else
      var m := Least(s);
      [m] + Enumerate(s - {m})
  }

  /** An ascending sequence is determined by its set of elements. */
  lemma {:induction false} AscendingUnique(a: seq<StreamId>, b: seq<StreamId>)
    requires Ascending(a) && Ascending(b)
    requires forall x :: x in a <==> x in b
    ensures a == b
  {
    assert b == [] || b[0] in b;
    if a != [] {
      assert a[0] in b && b != [];
      assert b[0] in a;
      assert a[0] == b[0] by {
        var i :| 0 <= i < |b| && b[i] == a[0];
        var j :| 0 <= j < |a| && a[j] == b[0];
        if i > 0 && j > 0 { assert Less(b[0], b[i]) && Less(a[0], a[j]); }
      }
      forall x ensures x in a[1..] <==> x in b[1..] {
        TailMembership(a, x);
        TailMembership(b, x);
      }
      AscendingUnique(a[1..], b[1..]);
      assert a == [a[0]] + a[1..] && b == [b[0]] + b[1..];
    }
  }

  lemma TailMembership(a: seq<StreamId>, x: StreamId)
    requires Ascending(a) && a != []
    ensures x in a[1..] <==> x in a && x != a[0]
  {
    if x in a[1..] {
      var i :| 0 <= i < |a| - 1 && a[1..][i] == x;
      assert Less(a[0], a[i + 1]);
    }
  }
}
