/** The string operations the source-list parser uses, with the laws it needs of them. */
module Text {

  /** White space, shared by `strip`, `lstrip`, `rstrip` and `split`. */
  predicate IsSpace(c: char) {
    c in {' ', '\t', '\n', '\r'} || 11 <= c as int <= 12 || 28 <= c as int <= 31
  }

  /** Tab to carriage return, the four separators, and the blank. */
  lemma SpaceCodes(c: char)
    ensures IsSpace(c) <==> 9 <= c as int <= 13 || 28 <= c as int <= 32
  {
  }

  function LStrip(s: string): string {
    if s != [] && IsSpace(s[0]) then LStrip(s[1..]) else s
  }

  function RStrip(s: string): string {
    if s != [] && IsSpace(s[|s| - 1]) then RStrip(s[..|s| - 1]) else s
  }

  function Strip(s: string): string { RStrip(LStrip(s)) }

  predicate AllSpace(s: string) { forall i :: 0 <= i < |s| ==> IsSpace(s[i]) }

  /** What is stripped on the left is white space, and nothing else is. */
  lemma {:induction false} LStripMeaning(pad: string, s: string)
    requires AllSpace(pad) && (s == [] || !IsSpace(s[0]))
    ensures LStrip(pad + s) == s
  {
    if pad == [] {
      assert pad + s == s;
    } else {
      assert (pad + s)[1..] == pad[1..] + s;
      LStripMeaning(pad[1..], s);
    }
  }

  lemma {:induction false} RStripMeaning(s: string, pad: string)
    requires AllSpace(pad) && (s == [] || !IsSpace(s[|s| - 1]))
    ensures RStrip(s + pad) == s
  {
    if pad == [] {
      assert s + pad == s;
    } else {
      assert (s + pad)[..|s + pad| - 1] == s + pad[..|pad| - 1];
      RStripMeaning(s, pad[..|pad| - 1]);
    }
  }

  /** Every string is white space followed by what stripping leaves. */
  lemma {:induction false} LStripSplits(s: string) returns (pad: string)
    ensures s == pad + LStrip(s) && AllSpace(pad) && (LStrip(s) == [] || !IsSpace(LStrip(s)[0]))
  {
    pad := [];
    if s != [] && IsSpace(s[0]) {
      pad := LStripSplits(s[1..]);
      pad := [s[0]] + pad;
    }
  }

  /** The first position of `c` in `s`, or the length of `s`. */
  function IndexOf(s: string, c: char): (k: nat)
    ensures k <= |s|
    ensures k < |s| ==> s[k] == c
    ensures forall i :: 0 <= i < k ==> s[i] != c
  {
    if s == [] || s[0] == c then 0 else 1 + IndexOf(s[1..], c)
  }

  lemma IndexOfUnique(s: string, c: char, k: nat)
    requires k <= |s| && (k < |s| ==> s[k] == c) && forall i :: 0 <= i < k ==> s[i] != c
    ensures IndexOf(s, c) == k
  {
  }

  /** The length of the leading run of non-space characters. */
  function WordEnd(s: string): (k: nat)
    ensures k <= |s|
    ensures forall i :: 0 <= i < k ==> !IsSpace(s[i])
    ensures k < |s| ==> IsSpace(s[k])
  {
    if s == [] || IsSpace(s[0]) then 0 else 1 + WordEnd(s[1..])
  }

  lemma WordEndUnique(s: string, k: nat)
    requires k <= |s| && (forall i :: 0 <= i < k ==> !IsSpace(s[i])) && (k < |s| ==> IsSpace(s[k]))
    ensures WordEnd(s) == k
  {
  }

  /** `split()`: the maximal runs of non-space characters. */
  function Words(s: string): seq<string>
    decreases |s|
  {
    if s == [] then []
    else if IsSpace(s[0]) then Words(s[1..])
    else [s[..WordEnd(s)]] + Words(s[WordEnd(s)..])
  }

  /** White space separates: nothing on either side of it is lost, merged or split. */
  lemma {:induction false} WordsAround(a: string, c: char, b: string)
    requires IsSpace(c)
    ensures Words(a + [c] + b) == Words(a) + Words(b)
    decreases |a|
  {
    var s := a + [c] + b;
    if a == [] {
      assert s[1..] == b;
    } else if IsSpace(a[0]) {
      assert s[1..] == a[1..] + [c] + b;
      WordsAround(a[1..], c, b);
    } else {
      var k := WordEnd(a);
      WordEndUnique(s, k);
      assert s[..k] == a[..k];
      assert s[k..] == a[k..] + [c] + b;
      WordsAround(a[k..], c, b);
      assert Words(s) == [a[..k]] + Words(s[k..]);
    }
  }

  lemma {:induction false} WordsLStrip(s: string)
    ensures Words(LStrip(s)) == Words(s)
  {
    if s != [] && IsSpace(s[0]) { WordsLStrip(s[1..]); }
  }

  lemma {:induction false} WordsRStrip(s: string)
    ensures Words(RStrip(s)) == Words(s)
  {
    if s != [] && IsSpace(s[|s| - 1]) {
      var init := s[..|s| - 1];
      assert s == init + [s[|s| - 1]] + [];
      WordsAround(init, s[|s| - 1], []);
      WordsRStrip(init);
    }
  }

  /** Stripping keeps what is between the first and the last non-space character. */
  lemma {:induction false} StripPadded(s: string, pad: string)
    requires s != [] && !IsSpace(s[0]) && !IsSpace(s[|s| - 1]) && AllSpace(pad)
    ensures Strip(s + pad) == s
  {
    assert LStrip(s + pad) == s + pad;
    RStripMeaning(s, pad);
  }

  function Letters(s: string): string {
    if s == [] then [] else (if IsSpace(s[0]) then [] else [s[0]]) + Letters(s[1..])
  }

  function Glue(words: seq<string>): string {
    if words == [] then [] else words[0] + Glue(words[1..])
  }

  lemma {:induction false} LettersAfterWord(word: string, rest: string)
    requires forall i :: 0 <= i < |word| ==> !IsSpace(word[i])
    ensures Letters(word + rest) == word + Letters(rest)
  {
    if word == [] {
      assert word + rest == rest;
    } else {
      assert (word + rest)[1..] == word[1..] + rest;
      LettersAfterWord(word[1..], rest);
    }
  }

  /** Words are non-empty, free of white space, and together hold every other character in order. */
  lemma {:induction false} WordsMeaning(s: string)
    ensures forall i :: 0 <= i < |Words(s)| ==> Words(s)[i] != [] && forall c :: c in Words(s)[i] ==> !IsSpace(c)
    ensures Glue(Words(s)) == Letters(s)
    decreases |s|
  {
    if s == [] {
    } else if IsSpace(s[0]) {
      WordsMeaning(s[1..]);
    } else {
      var k := WordEnd(s);
      WordsMeaning(s[k..]);
      LettersAfterWord(s[..k], s[k..]);
      assert s[..k] + s[k..] == s;
      assert Words(s)[1..] == Words(s[k..]);
    }
  }
}
