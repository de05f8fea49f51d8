/** The whitespace-aware tokenisation of documents. What counts as whitespace
    is a parameter. */
module Tokenizer {

  /** Length of the longest prefix whose characters are all of the class of the first. */
  function RunLength(text: string, isSpace: char -> bool): (n: nat)
    requires text != []
    ensures 1 <= n <= |text|
    ensures forall i | 0 <= i < n :: isSpace(text[i]) == isSpace(text[0])
    ensures n < |text| ==> isSpace(text[n]) != isSpace(text[0])
  {
    if |text| > 1 && isSpace(text[1]) == isSpace(text[0]) then RunLength(text[1..], isSpace) + 1 else 1
  }

  /** `re.findall(r"\S+|\s+", text)`. */
  function Tokenize(text: string, isSpace: char -> bool): seq<string> {
    if text == [] then []
    else
      var n := RunLength(text, isSpace);
      [text[..n]] + Tokenize(text[n..], isSpace)
  }

  /** `"".join(tokens)`. */
  function Join(tokens: seq<string>): string {
    if tokens == [] then [] else tokens[0] + Join(tokens[1..])
  }

  /** A non-empty token of one class of characters. */
  ghost predicate IsRun(token: string, isSpace: char -> bool) {
    token != [] && forall i | 0 <= i < |token| :: isSpace(token[i]) == isSpace(token[0])
  }

  /** Runs of alternating class: a decomposition into maximal runs. */
  ghost predicate Alternating(tokens: seq<string>, isSpace: char -> bool) {
    && (forall i | 0 <= i < |tokens| :: IsRun(tokens[i], isSpace))
    && (forall i | 0 <= i < |tokens| - 1 :: isSpace(tokens[i][0]) != isSpace(tokens[i + 1][0]))
  }

  /** Joining the tokens gives the text back. */
  lemma {:induction false} TokenizeJoin(text: string, isSpace: char -> bool)
    ensures Join(Tokenize(text, isSpace)) == text
  {
    if text != [] {
      var n := RunLength(text, isSpace);
      TokenizeJoin(text[n..], isSpace);
      assert text[..n] + text[n..] == text;
    }
  }

  lemma {:induction false} TokenizeAlternates(text: string, isSpace: char -> bool)
    ensures Alternating(Tokenize(text, isSpace), isSpace)
    ensures text != [] ==> Tokenize(text, isSpace) != [] && Tokenize(text, isSpace)[0] <= text
  {
    if text != [] {
      var n := RunLength(text, isSpace);
      TokenizeAlternates(text[n..], isSpace);
    }
  }

  lemma RunLengthOfFirst(tokens: seq<string>, isSpace: char -> bool)
    requires Alternating(tokens, isSpace) && tokens != []
    ensures Join(tokens) != [] && RunLength(Join(tokens), isSpace) == |tokens[0]|
  {
    var text, n := Join(tokens), RunLength(Join(tokens), isSpace);
    var m := |tokens[0]|;
    assert IsRun(tokens[0], isSpace);
    assert forall i | 0 <= i < m :: text[i] == tokens[0][i];
    if |tokens| > 1 {
      assert IsRun(tokens[1], isSpace);
      assert text[m] == tokens[1][0];
    }
  }

  lemma AlternatingTail(tokens: seq<string>, isSpace: char -> bool)
    requires Alternating(tokens, isSpace) && tokens != []
    ensures Alternating(tokens[1..], isSpace)
  {
    assert forall i | 0 <= i < |tokens[1..]| :: tokens[1..][i] == tokens[i + 1];
  }

  /** There is only one way to cut a text into alternating runs. */
  lemma {:induction false} TokenizeUnique(tokens: seq<string>, isSpace: char -> bool)
    requires Alternating(tokens, isSpace)
    ensures Tokenize(Join(tokens), isSpace) == tokens
  {
    if tokens != [] {
      var text := Join(tokens);
      RunLengthOfFirst(tokens, isSpace);
      AlternatingTail(tokens, isSpace);
      TokenizeUnique(tokens[1..], isSpace);
      assert text[..|tokens[0]|] == tokens[0] && text[|tokens[0]|..] == Join(tokens[1..]);
    }
  }

  lemma AlternatingSlice(tokens: seq<string>, isSpace: char -> bool, lo: nat, hi: nat)
    requires Alternating(tokens, isSpace) && lo <= hi <= |tokens|
    ensures Alternating(tokens[lo..hi], isSpace)
  {
    var piece := tokens[lo..hi];
    assert forall i | 0 <= i < |piece| :: piece[i] == tokens[lo + i];
  }

  lemma {:induction false} JoinConcat(a: seq<string>, b: seq<string>)
    ensures Join(a + b) == Join(a) + Join(b)
  {
    if a == [] {
      assert a + b == b;
    } else {
      assert (a + b)[0] == a[0] && (a + b)[1..] == a[1..] + b;
      JoinConcat(a[1..], b);
    }
  }
}
