/**
 Source lists as lists of words.  In a list whose references stand alone, as words
 of their own, the parser's strings play no part: a symbol is a list of words, a
 reference stands for the list of its symbol, and that is what the file means.
 */
module WordMeaning {
  import opened Text
  import opened Expansion
  import opened WordConservation

  type WordTable = map<string, seq<string>>

  /** The symbols, each as its words. */
  function WordTableOf(t: Table): WordTable { map k | k in t :: Words(t[k]) }

  /** The word is `$(name)`. */
  predicate IsReference(w: string) {
    |w| >= 3 && w[0] == '$' && w[1] == '(' && IndexOf(w, ')') == |w| - 1
  }

  function ReferredName(w: string): string
    requires IsReference(w)
  {
    w[2..|w| - 1]
  }

  /** No word mixes a reference with other text. */
  predicate StandAlone(words: seq<string>) {
    forall i :: 0 <= i < |words| ==> IsReference(words[i]) || '$' !in words[i]
  }

  function WordValue(env: WordTable, w: string): seq<string> {
    if IsReference(w) && ReferredName(w) in env then env[ReferredName(w)] else [w]
  }

  /** Words with every reference replaced by the words of its symbol. */
  function Replaced(env: WordTable, words: seq<string>): seq<string> {
    if words == [] then [] else WordValue(env, words[0]) + Replaced(env, words[1..])
  }

  // --------------------------------------------------------------------- one piece

  lemma {:induction false} OneWord(w: string)
    requires w != [] && forall i :: 0 <= i < |w| ==> !IsSpace(w[i])
    ensures Words(w) == [w]
  {
    WordEndUnique(w, |w|);
    assert w[..|w|] == w && w[|w|..] == [];
  }

  lemma {:induction false} ExpandWord(t: Table, w: string)
    requires w != [] && forall i :: 0 <= i < |w| ==> !IsSpace(w[i])
    requires IsReference(w) || '$' !in w
    ensures Expand(t, w).Ok? <==> (IsReference(w) ==> ReferredName(w) in t)
    ensures Expand(t, w).Ok? ==> Words(Expand(t, w).value) == WordValue(WordTableOf(t), w)
  {
    if IsReference(w) {
      var name := ReferredName(w);
      assert w[|w| - 1] == ')' && ')' !in name;
      assert w == "$(" + name + ")" + "";
      ExpandRef(t, name, "");
      if name in t {
        assert t[name] + "" == t[name];
      }
    } else {
      ExpandPlain(t, w);
      OneWord(w);
    }
  }

  /** The first word of a piece that starts with one, and the rest. */
  lemma {:induction false} ExpandFirstWord(t: Table, piece: string)
    requires piece != [] && !IsSpace(piece[0]) && StandAlone(Words(piece)) && Expand(t, piece).Ok?
    ensures var k := WordEnd(piece);
            && Words(piece) == [piece[..k]] + Words(piece[k..])
            && Expand(t, piece[k..]).Ok?
            && Words(Expand(t, piece).value) ==
               WordValue(WordTableOf(t), piece[..k]) + Words(Expand(t, piece[k..]).value)
  {
    var k := WordEnd(piece);
    var w, rest := piece[..k], piece[k..];
    assert piece == w + rest;
    assert Words(piece)[0] == w;
    KnownWord(t, w, rest);
    ExpandWord(t, w);
    ExpandSeparated(t, w, rest);
  }

  /** Expansion merges nothing across white space. */
  lemma {:induction false} ExpandSeparated(t: Table, w: string, rest: string)
    requires Expand(t, w).Ok? && Expand(t, w + rest).Ok? && (rest == [] || IsSpace(rest[0]))
    ensures Expand(t, rest).Ok?
    ensures Words(Expand(t, w + rest).value) == Words(Expand(t, w).value) + Words(Expand(t, rest).value)
  {
    ExpandConcat(t, w, rest);
    var v := Expand(t, w).value;
    if rest == [] {
      assert v + [] == v;
    } else {
      var e := Expand(t, rest[1..]).value;
      assert v + ([rest[0]] + e) == v + [rest[0]] + e;
      WordsAround(v, rest[0], e);
      assert ([rest[0]] + e)[1..] == e;
    }
  }

  /** A value that expands refers to known symbols. */
  lemma {:induction false} KnownWord(t: Table, w: string, rest: string)
    requires IsReference(w) || '$' !in w
    requires Expand(t, w + rest).Ok?
    ensures IsReference(w) ==> ReferredName(w) in t
  {
    if IsReference(w) {
      var name := ReferredName(w);
      assert w[|w| - 1] == ')' && ')' !in name;
      assert w + rest == "$(" + name + ")" + rest;
      ExpandRef(t, name, rest);
    }
  }

  /** Expanding a piece and splitting it is splitting it and replacing its references. */
  lemma {:induction false} PieceReplaced(t: Table, piece: string)
    requires StandAlone(Words(piece)) && Expand(t, piece).Ok?
    ensures Words(Expand(t, piece).value) == Replaced(WordTableOf(t), Words(piece))
    decreases |piece|
  {
    if piece == [] {
    } else if IsSpace(piece[0]) {
      PieceReplaced(t, piece[1..]);
      var e := Expand(t, piece[1..]).value;
      assert ([piece[0]] + e)[1..] == e;
    } else {
      var k := WordEnd(piece);
      ExpandFirstWord(t, piece);
      var words := Words(piece);
      assert words[1..] == Words(piece[k..]);
      assert StandAlone(words[1..]) by {
        assert forall i :: 0 <= i < |words| - 1 ==> words[1..][i] == words[i + 1];
      }
      PieceReplaced(t, piece[k..]);
    }
  }

  // ------------------------------------------------------------------- whole files

  function PiecesReplaced(env: WordTable, pieces: seq<string>): seq<string> {
    if pieces == [] then [] else Replaced(env, Words(pieces[0])) + PiecesReplaced(env, pieces[1..])
  }

  predicate StandAlonePieces(pieces: seq<string>) {
    forall i :: 0 <= i < |pieces| ==> StandAlone(Words(pieces[i]))
  }

  predicate StandAloneItems(items: seq<Item>) {
    forall i :: 0 <= i < |items| && items[i].Def? ==> StandAlonePieces(items[i].def.pieces)
  }

  /** A definition on lists of words. */
  function DefineWords(env: WordTable, d: Definition): WordTable {
    var words := PiecesReplaced(env, d.pieces);
    match d.op
    case Plain | Simple => env[d.name := words]
    case Append => env[d.name := (if d.name in env then env[d.name] else []) + words]
    case Conditional => if d.name in env then env else env[d.name := words]
  }

  /** The file as a program on lists of words. */
  function ListMeaning(env: WordTable, items: seq<Item>): WordTable {
    if items == [] then env
    else
      var n := |items| - 1;
      var before := ListMeaning(env, items[..n]);
      if items[n].Def? then DefineWords(before, items[n].def) else before
  }

  lemma {:induction false} PiecesAgree(t: Table, pieces: seq<string>)
    requires AllExpand(t, pieces) && StandAlonePieces(pieces)
    ensures PieceWords(t, pieces) == PiecesReplaced(WordTableOf(t), pieces)
  {
    if pieces != [] {
      PieceReplaced(t, pieces[0]);
      PiecesAgree(t, pieces[1..]);
    }
  }

  lemma {:induction false} DefineWordsKeys(env: WordTable, d: Definition)
    ensures DefineWords(env, d).Keys == env.Keys + {d.name}
    ensures forall k :: k in env && k != d.name ==> DefineWords(env, d)[k] == env[k]
  {
  }

  lemma {:induction false} DefinedWordsAgree(t: Table, d: Definition)
    requires Definable(t, d) && StandAlonePieces(d.pieces)
    ensures d.name in DefineWords(WordTableOf(t), d)
    ensures DefineWords(WordTableOf(t), d)[d.name] == NewWords(t, d)
  {
    PiecesAgree(t, d.pieces);
  }

  lemma {:induction false} DefinitionAgrees(t: Table, d: Definition)
    requires Definable(t, d) && StandAlonePieces(d.pieces)
    ensures WordTableOf(AfterDefinition(t, d)) == DefineWords(WordTableOf(t), d)
  {
    DefinitionWords(t, d);
    DefinedWordsAgree(t, d);
    DefineWordsKeys(WordTableOf(t), d);
    var a, b := WordTableOf(AfterDefinition(t, d)), DefineWords(WordTableOf(t), d);
    forall k | k in a ensures k in b && a[k] == b[k] {
      assert k == d.name || k in t;
    }
    SameTable(a, b);
  }

  lemma {:induction false} SameTable(a: WordTable, b: WordTable)
    requires a.Keys == b.Keys && forall k :: k in a ==> a[k] == b[k]
    ensures a == b
  {
  }

  /** If all references stand alone, the parser computes the meaning on lists of words. */
  lemma {:induction false} ListsOfWords(t: Table, items: seq<Item>)
    requires Readable(t, items) && StandAloneItems(items)
    ensures WordTableOf(Meaning(t, items)) == ListMeaning(WordTableOf(t), items)
  {
    if items != [] {
      var n := |items| - 1;
      ListsOfWords(t, items[..n]);
      if items[n].Def? {
        DefinitionAgrees(Meaning(t, items[..n]), items[n].def);
      }
    }
  }
}
