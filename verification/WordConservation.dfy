/**
 From the text of a source list to its words.  Definitions may be spread over
 continuation lines and extended by later `+=` lines; as long as no reference
 straddles a line break, the words of a symbol are exactly the words of its
 pieces in file order.
 */
module WordConservation {
  import opened Common
  import opened Text
  import opened Expansion
  import opened SourceList
  import opened LogicalLines

  datatype Operator = Plain | Simple | Append | Conditional

  function Symbol(op: Operator): string {
    match op
    case Plain => "="
    case Simple => ":="
    case Append => "+="
    case Conditional => "?="
  }

  /** `name pad op pieces[0]`, continued on one further line per piece. */
  datatype Definition = Definition(name: string, pad: string, op: Operator, pieces: seq<string>)

  predicate WellFormed(d: Definition) {
    && d.name != [] && '=' !in d.name && d.name[0] != '#'
    && !IsSpace(d.name[0]) && !IsSpace(d.name[|d.name| - 1])
    && AllSpace(d.pad)
    && (d.op == Plain && d.pad == [] ==> d.name[|d.name| - 1] !in {':', '+', '?'})
    && d.pieces != [] && !Continued(d.pieces[|d.pieces| - 1])
  }

  function Head(d: Definition): string { d.name + d.pad + Symbol(d.op) }

  /** A physical line without its backslash. */
  function LineText(d: Definition, i: nat): string
    requires i < |d.pieces|
  {
    if i == 0 then Head(d) + d.pieces[0] else d.pieces[i]
  }

  /** The physical lines. */
  function Lines(d: Definition): (r: seq<string>)
    ensures |r| == |d.pieces|
    ensures forall i :: 0 <= i < |r| ==>
      r[i] == if i < |d.pieces| - 1 then LineText(d, i) + "\\" else LineText(d, i)
  {
    seq(|d.pieces|, i requires 0 <= i < |d.pieces| =>
      if i < |d.pieces| - 1 then LineText(d, i) + "\\" else LineText(d, i))
  }

  predicate AllExpand(t: Table, pieces: seq<string>) {
    forall i :: 0 <= i < |pieces| ==> Expand(t, pieces[i]).Ok?
  }

  /** The words of the expanded pieces, in order. */
  function PieceWords(t: Table, pieces: seq<string>): seq<string>
    requires AllExpand(t, pieces)
  {
    if pieces == [] then [] else Words(Expand(t, pieces[0]).value) + PieceWords(t, pieces[1..])
  }

  // ------------------------------------------------- the logical line of a definition

  lemma {:induction false} RStripAfter(head: string, x: string)
    requires head != [] && !IsSpace(head[|head| - 1])
    ensures RStrip(head + x) == head + RStrip(x)
  {
    if x == [] {
      assert head + x == head;
    } else if IsSpace(x[|x| - 1]) {
      assert (head + x)[..|head + x| - 1] == head + x[..|x| - 1];
      RStripAfter(head, x[..|x| - 1]);
    }
  }

  function TrimmedAt(pieces: seq<string>, i: nat): string
    requires i < |pieces|
  {
    if |pieces| == 1 then pieces[0]
    else if i == 0 then RStrip(pieces[i])
    else if i < |pieces| - 1 then Strip(pieces[i])
    else LStrip(pieces[i])
  }

  /** The pieces without the white space around the line breaks. */
  function Trimmed(pieces: seq<string>): (r: seq<string>)
    ensures |r| == |pieces|
    ensures forall i :: 0 <= i < |r| ==> r[i] == TrimmedAt(pieces, i)
  {
    var n := |pieces|;
    seq(n, i requires 0 <= i < n => TrimmedAt(pieces, i))
  }

  lemma {:induction false} LinesContinue(d: Definition)
    requires WellFormed(d)
    ensures CompleteBlock(Lines(d))
    ensures forall i :: 0 <= i < |d.pieces| - 1 ==> Continued(Lines(d)[i]) && Body(Lines(d)[i]) == LineText(d, i)
  {
    var ls, n := Lines(d), |d.pieces| - 1;
    forall i | 0 <= i < n
      ensures Continued(ls[i]) && Body(ls[i]) == LineText(d, i)
    {
      assert ls[i] == LineText(d, i) + "\\";
    }
    assert !Continued(ls[n]) by {
      if n == 0 {
        assert Head(d)[|Head(d)| - 1] == '=';
        assert ls[n][|ls[n]| - 1] == if d.pieces[0] == [] then '=' else d.pieces[0][|d.pieces[0]| - 1];
      }
    }
  }

  lemma {:induction false} FirstPart(d: Definition)
    requires WellFormed(d) && |d.pieces| > 1
    ensures CompleteBlock(Lines(d)) && Parts(Lines(d))[0] == Head(d) + RStrip(d.pieces[0])
  {
    LinesContinue(d);
    var ls, n := Lines(d), |d.pieces| - 1;
    RStripAfter(Head(d), d.pieces[0]);
    assert Parts(ls)[0] == OpenPart(ls[..n], 0);
  }

  lemma {:induction false} PartAt(block: seq<string>, i: nat, x: string)
    requires CompleteBlock(block) && 1 <= i < |block|
    requires if i < |block| - 1 then Continued(block[i]) && Body(block[i]) == x else block[i] == x
    ensures Parts(block)[i] == if i < |block| - 1 then Strip(x) else LStrip(x)
  {
    var open := block[..|block| - 1];
    if i < |open| {
      assert open[i] == block[i];
      assert Parts(block)[i] == OpenPart(open, i);
    }
  }

  lemma {:induction false} LaterPart(d: Definition, i: nat)
    requires WellFormed(d) && 1 <= i < |d.pieces|
    ensures CompleteBlock(Lines(d)) && Parts(Lines(d))[i] == TrimmedAt(d.pieces, i)
  {
    LinesContinue(d);
    PartAt(Lines(d), i, d.pieces[i]);
  }

  lemma {:induction false} PartsOfLines(d: Definition)
    requires WellFormed(d)
    ensures CompleteBlock(Lines(d))
    ensures Parts(Lines(d)) == [Head(d) + Trimmed(d.pieces)[0]] + Trimmed(d.pieces)[1..]
  {
    LinesContinue(d);
    var parts, trimmed := Parts(Lines(d)), Trimmed(d.pieces);
    if |trimmed| > 1 {
      FirstPart(d);
    } else {
      assert Lines(d)[0] == LineText(d, 0);
    }
    forall i | 1 <= i < |trimmed| ensures parts[i] == trimmed[i] {
      LaterPart(d, i);
    }
    HeadAndRest(parts, Head(d), trimmed);
  }

  lemma {:induction false} HeadAndRest(parts: seq<string>, head: string, rest: seq<string>)
    requires |parts| == |rest| > 0 && parts[0] == head + rest[0]
    requires forall i :: 1 <= i < |rest| ==> parts[i] == rest[i]
    ensures parts == [head + rest[0]] + rest[1..]
  {
  }

  lemma {:induction false} SpacedHead(head: string, parts: seq<string>)
    requires parts != []
    ensures Spaced([head + parts[0]] + parts[1..]) == head + Spaced(parts)
  {
    var ps := [head + parts[0]] + parts[1..];
    if |parts| > 1 {
      assert ps[1..] == parts[1..];
      assert head + parts[0] + " " + Spaced(parts[1..]) == head + (parts[0] + " " + Spaced(parts[1..]));
    }
  }

  lemma {:induction false} JoinLines(d: Definition)
    requires WellFormed(d)
    ensures CompleteBlock(Lines(d)) && Join(Lines(d)) == Head(d) + Spaced(Trimmed(d.pieces))
  {
    PartsOfLines(d);
    SpacedHead(Head(d), Trimmed(d.pieces));
  }

  // ------------------------------------------------------------- parsing it

  /** The operator is where the first `=` is. */
  lemma {:induction false} OperatorAt(d: Definition, value: string)
    requires WellFormed(d)
    ensures IndexOf(Head(d) + value, '=') == |Head(d)| - 1
  {
    var line, eq := Head(d) + value, |Head(d)| - 1;
    forall i | 0 <= i < eq ensures line[i] != '=' {
      if i < |d.name| {
        assert line[i] == d.name[i];
      } else if i < |d.name| + |d.pad| {
        assert line[i] == d.pad[i - |d.name|];
      } else {
        assert line[i] == Symbol(d.op)[i - |d.name| - |d.pad|];
      }
    }
    IndexOfUnique(line, '=', eq);
  }

  /** It is one character wide exactly for `=`. */
  lemma {:induction false} OperatorStart(d: Definition)
    requires WellFormed(d)
    ensures var eq := |Head(d)| - 1; eq > 0 && (Head(d)[eq - 1] in {':', '+', '?'} <==> d.op != Plain)
  {
    var eq := |Head(d)| - 1;
    if d.op == Plain {
      if d.pad != [] {
        assert Head(d)[eq - 1] == d.pad[|d.pad| - 1];
        assert IsSpace(d.pad[|d.pad| - 1]);
      } else {
        assert Head(d)[eq - 1] == d.name[|d.name| - 1];
      }
    } else {
      assert Head(d)[eq - 1] == Symbol(d.op)[0];
    }
  }

  lemma {:induction false} DefineOf(t: Table, d: Definition, value: string)
    requires WellFormed(d)
    ensures Define(t, Head(d) + value) == Assign(t, d.name, Symbol(d.op), Expand(t, LStrip(value)))
  {
    var head := Head(d);
    var line, eq, start := head + value, |head| - 1, |d.name| + |d.pad|;
    OperatorAt(d, value);
    OperatorStart(d);
    assert line[eq - 1] == head[eq - 1];
    assert line[start..eq + 1] == Symbol(d.op);
    assert line[..start] == d.name + d.pad;
    StripPadded(d.name, d.pad);
    assert line[eq + 1..] == value;
  }

  lemma {:induction false} ExecuteDefinition(p: Progress, d: Definition, value: string)
    requires WellFormed(d) && p.error == None
    ensures Execute(p, Head(d) + value) ==
            match Assign(p.table, d.name, Symbol(d.op), Expand(p.table, LStrip(value)))
            case Err(e) => p.(error := Some(e))
            case Ok(t) => p.(table := t, complete := p.complete + 1)
  {
    var line := Head(d) + value;
    assert line[0] == d.name[0];
    assert LStrip(line) == line;
    assert line[0] != '\t';
    DefineOf(p.table, d, value);
  }

  lemma {:induction false} TrimmedExpand(t: Table, pieces: seq<string>)
    requires AllExpand(t, pieces)
    ensures AllExpand(t, Trimmed(pieces))
    ensures forall i :: 0 <= i < |pieces| ==>
              Words(Expand(t, Trimmed(pieces)[i]).value) == Words(Expand(t, pieces[i]).value)
  {
    forall i | 0 <= i < |pieces|
      ensures Expand(t, Trimmed(pieces)[i]).Ok?
      ensures Words(Expand(t, Trimmed(pieces)[i]).value) == Words(Expand(t, pieces[i]).value)
    {
      ExpandLStrip(t, pieces[i]);
      ExpandRStrip(t, pieces[i]);
      ExpandStrip(t, pieces[i]);
    }
  }

  lemma {:induction false} SameWords(t: Table, a: seq<string>, b: seq<string>)
    requires AllExpand(t, a) && AllExpand(t, b) && |a| == |b|
    requires forall i :: 0 <= i < |a| ==> Words(Expand(t, a[i]).value) == Words(Expand(t, b[i]).value)
    ensures PieceWords(t, a) == PieceWords(t, b)
  {
    if a != [] {
      SameWords(t, a[1..], b[1..]);
    }
  }

  lemma {:induction false} ExpandPair(t: Table, a: string, b: string)
    requires Expand(t, a).Ok? && Expand(t, b).Ok?
    ensures var r := Expand(t, a + " " + b);
            r.Ok? && Words(r.value) == Words(Expand(t, a).value) + Words(Expand(t, b).value)
  {
    var e, f := Expand(t, a).value, Expand(t, b).value;
    ExpandAround(t, a, b);
    assert e + (" " + f) == e + [' '] + f;
    WordsAround(e, ' ', f);
  }

  lemma {:induction false} ExpandAround(t: Table, a: string, b: string)
    requires Expand(t, a).Ok? && Expand(t, b).Ok?
    ensures Expand(t, a + " " + b) == Ok(Expand(t, a).value + (" " + Expand(t, b).value))
  {
    assert a + " " + b == a + (" " + b);
    ExpandConcat(t, a, " " + b);
    ExpandLiteral(t, " ", b);
  }

  lemma {:induction false} ExpandSpaced(t: Table, parts: seq<string>)
    requires parts != [] && AllExpand(t, parts)
    ensures Expand(t, Spaced(parts)).Ok?
    ensures Words(Expand(t, Spaced(parts)).value) == PieceWords(t, parts)
  {
    if |parts| == 1 {
      assert PieceWords(t, parts) == Words(Expand(t, parts[0]).value) + [];
    } else {
      ExpandSpaced(t, parts[1..]);
      ExpandPair(t, parts[0], Spaced(parts[1..]));
    }
  }

  /** The words a symbol has after its definition. */
  function NewWords(t: Table, d: Definition): seq<string>
    requires AllExpand(t, d.pieces)
  {
    if d.op == Append && d.name in t then Words(t[d.name]) + PieceWords(t, d.pieces)
    else if d.op == Conditional && d.name in t then Words(t[d.name])
    else PieceWords(t, d.pieces)
  }

  /** `+=` needs a symbol to extend, and every piece must expand by itself. */
  predicate Definable(t: Table, d: Definition) {
    WellFormed(d) && AllExpand(t, d.pieces) && (d.op == Append ==> d.name in t)
  }

  /** The value of the logical line has the words of the pieces. */
  lemma {:induction false} ValueWords(t: Table, pieces: seq<string>)
    requires pieces != [] && AllExpand(t, pieces)
    ensures var v := Expand(t, LStrip(Spaced(Trimmed(pieces)))); v.Ok? && Words(v.value) == PieceWords(t, pieces)
  {
    TrimmedExpand(t, pieces);
    SameWords(t, Trimmed(pieces), pieces);
    ExpandSpaced(t, Trimmed(pieces));
    ExpandLStrip(t, Spaced(Trimmed(pieces)));
  }

  /** The text of the value, expanded once. */
  function Value(t: Table, pieces: seq<string>): string
    requires pieces != [] && AllExpand(t, pieces)
  {
    ValueWords(t, pieces);
    Expand(t, LStrip(Spaced(Trimmed(pieces)))).value
  }

  /** What a definition means. */
  function AfterDefinition(t: Table, d: Definition): Table
    requires Definable(t, d)
  {
    match d.op
    case Plain | Simple => t[d.name := Value(t, d.pieces)]
    case Append => t[d.name := t[d.name] + (" " + Value(t, d.pieces))]
    case Conditional => if d.name in t then t else t[d.name := Value(t, d.pieces)]
  }

  /** Reading it, however many physical lines it takes, does what it means. */
  lemma {:induction false} FeedDefinition(p: Progress, d: Definition)
    requires p.error == None && p.cont == [] && Definable(p.table, d)
    ensures Feed(p, Lines(d)) == p.(table := AfterDefinition(p.table, d), complete := p.complete + 1)
  {
    JoinLines(d);
    FeedBlock(p, Lines(d));
    ExecuteDefinition(p, d, Spaced(Trimmed(d.pieces)));
    ValueWords(p.table, d.pieces);
    AssignMeans(p.table, d);
  }

  lemma {:induction false} AssignMeans(t: Table, d: Definition)
    requires Definable(t, d)
    ensures Assign(t, d.name, Symbol(d.op), Ok(Value(t, d.pieces))) == Ok(AfterDefinition(t, d))
  {
  }

  /** Its symbol has exactly the words of the pieces; other symbols are left alone. */
  lemma {:induction false} DefinitionWords(t: Table, d: Definition)
    requires Definable(t, d)
    ensures var t' := AfterDefinition(t, d);
            && t'.Keys == t.Keys + {d.name}
            && (forall k :: k in t && k != d.name ==> t'[k] == t[k])
            && Words(t'[d.name]) == NewWords(t, d)
  {
    var v := Value(t, d.pieces);
    ValueWords(t, d.pieces);
    if d.op == Append {
      var was := t[d.name];
      assert was + (" " + v) == was + [' '] + v;
      WordsAround(was, ' ', v);
    }
  }

  // ------------------------------------------------------------------ whole files

  /** Definitions, and lines that define nothing. */
  datatype Item = Def(def: Definition) | Note(line: string)

  function ItemLines(item: Item): seq<string> {
    match item
    case Def(d) => Lines(d)
    case Note(line) => [line]
  }

  /** An empty line or a comment. */
  predicate IsNote(line: string) {
    line == [] || (!Continued(line) && LStrip(line) != [] && LStrip(line)[0] == '#')
  }

  function FileLines(items: seq<Item>): seq<string> {
    if items == [] then [] else FileLines(items[..|items| - 1]) + ItemLines(items[|items| - 1])
  }

  predicate ReadableItem(t: Table, item: Item) {
    match item
    case Def(d) => Definable(t, d)
    case Note(line) => IsNote(line)
  }

  function ItemMeaning(t: Table, item: Item): Table {
    match item
    case Def(d) => if Definable(t, d) then AfterDefinition(t, d) else t
    case Note(_) => t
  }

  /** The symbols after the items, in terms of the text alone. */
  function Meaning(t: Table, items: seq<Item>): Table {
    if items == [] then t
    else
      var n := |items| - 1;
      ItemMeaning(Meaning(t, items[..n]), items[n])
  }

  /** Every item can be read when its turn comes. */
  predicate Readable(t: Table, items: seq<Item>) {
    items == [] ||
    (var n := |items| - 1; Readable(t, items[..n]) && ReadableItem(Meaning(t, items[..n]), items[n]))
  }

  function WordsOf(t: Table, name: string): seq<string> {
    if name in t then Words(t[name]) else []
  }

  predicate Defines(item: Item, name: string) { item.Def? && item.def.name == name }

  /** The words of `name` after one more item, if it had `earlier` before. */
  function AfterItem(t: Table, item: Item, earlier: seq<string>, name: string): seq<string>
    requires item.Def? ==> AllExpand(t, item.def.pieces)
  {
    if !Defines(item, name) then earlier
    else if item.def.op == Append then earlier + PieceWords(t, item.def.pieces)
    else if item.def.op == Conditional && name in t then earlier
    else PieceWords(t, item.def.pieces)
  }

  /** The words of `name` at the end of the file, gathered from the pieces. */
  function Collected(t: Table, items: seq<Item>, name: string): seq<string>
    requires Readable(t, items)
  {
    if items == [] then WordsOf(t, name)
    else
      var n := |items| - 1;
      AfterItem(Meaning(t, items[..n]), items[n], Collected(t, items[..n], name), name)
  }

  lemma {:induction false} FeedNote(p: Progress, line: string)
    requires p.error == None && p.cont == [] && IsNote(line)
    ensures Feed(p, [line]) == p.(complete := p.complete + 1)
  {
    assert [line][..0] == [];
  }

  lemma {:induction false} FeedItem(p: Progress, item: Item)
    requires p.error == None && p.cont == [] && ReadableItem(p.table, item)
    ensures Feed(p, ItemLines(item)) == p.(table := ItemMeaning(p.table, item), complete := p.complete + 1)
  {
    match item
    case Note(line) => FeedNote(p, line);
    case Def(d) => FeedDefinition(p, d);
  }

  /** The parser reads a file without error and ends with the symbols the file means. */
  lemma {:induction false} FeedMeaning(p: Progress, items: seq<Item>)
    requires p.error == None && p.cont == [] && Readable(p.table, items)
    ensures Feed(p, FileLines(items)) ==
            p.(table := Meaning(p.table, items), complete := p.complete + |items|)
  {
    if items == [] {
      assert Feed(p, FileLines(items)) == p;
    } else {
      var n := |items| - 1;
      var init, last := items[..n], items[n];
      FeedMeaning(p, init);
      var q := p.(table := Meaning(p.table, init), complete := p.complete + n);
      FeedItem(q, last);
      FeedAfter(p, FileLines(init), q, ItemLines(last));
    }
  }

  lemma {:induction false} FeedAfter(p: Progress, a: seq<string>, q: Progress, b: seq<string>)
    requires Feed(p, a) == q
    ensures Feed(p, a + b) == Feed(q, b)
  {
    FeedConcat(p, a, b);
  }

  /** A file may end inside a continuation: the unfinished definition is dropped. */
  lemma {:induction false} FeedMeaningOpen(p: Progress, items: seq<Item>, rest: seq<string>)
    requires p.error == None && p.cont == [] && Readable(p.table, items) && OpenBlock(rest)
    ensures var q := Feed(p, FileLines(items) + rest);
            && q.error == None && q.complete == p.complete + |items| && q.table == Meaning(p.table, items)
            && (q.cont == [] <==> rest == [])
  {
    FeedMeaning(p, items);
    FeedConcat(p, FileLines(items), rest);
    FeedOpen(Feed(p, FileLines(items)), rest);
  }

  lemma {:induction false} ItemWords(t: Table, d: Definition, name: string)
    requires Definable(t, d)
    ensures WordsOf(AfterDefinition(t, d), name) == AfterItem(t, Def(d), WordsOf(t, name), name)
  {
    DefinitionWords(t, d);
  }

  /** No word is lost, invented, duplicated or moved. */
  lemma {:induction false} MeaningWords(t: Table, items: seq<Item>, name: string)
    requires Readable(t, items)
    ensures WordsOf(Meaning(t, items), name) == Collected(t, items, name)
  {
    if items != [] {
      var n := |items| - 1;
      MeaningWords(t, items[..n], name);
      if items[n].Def? {
        ItemWords(Meaning(t, items[..n]), items[n].def, name);
      }
    }
  }

  /** All of it: whatever the file, and also if it ends inside a continuation. */
  lemma {:induction false} FileWords(p: Progress, items: seq<Item>, rest: seq<string>, name: string)
    requires p.error == None && p.cont == [] && Readable(p.table, items) && OpenBlock(rest)
    ensures var q := Feed(p, FileLines(items) + rest);
            && q.error == None && q.complete == p.complete + |items|
            && WordsOf(q.table, name) == Collected(p.table, items, name)
  {
    FeedMeaningOpen(p, items, rest);
    MeaningWords(p.table, items, name);
  }

  /** All pieces written for `name`, in file order. */
  function Contributions(t: Table, items: seq<Item>, name: string): seq<string>
    requires Readable(t, items)
  {
    if items == [] then []
    else
      var n := |items| - 1;
      Contributions(t, items[..n], name) +
      (if Defines(items[n], name) then PieceWords(Meaning(t, items[..n]), items[n].def.pieces) else [])
  }

  /** Only the first definition of `name` may be something other than `+=`. */
  predicate DefinedThenExtended(items: seq<Item>, name: string) {
    forall i, j :: 0 <= i < j < |items| && Defines(items[i], name) && Defines(items[j], name) ==>
      items[j].def.op == Append
  }

  /** A definition adds its symbol and nothing is removed. */
  lemma {:induction false} KeysGrow(t: Table, items: seq<Item>)
    requires items != [] && Readable(t, items)
    ensures var n := |items| - 1;
            Meaning(t, items).Keys ==
            Meaning(t, items[..n]).Keys + (if items[n].Def? then {items[n].def.name} else {})
  {
    var n := |items| - 1;
    if items[n].Def? {
      DefinitionWords(Meaning(t, items[..n]), items[n].def);
    }
  }

  /** What no item defines has no pieces and does not appear. */
  lemma {:induction false} NeverDefined(t: Table, items: seq<Item>, name: string)
    requires Readable(t, items) && name !in t
    requires forall i :: 0 <= i < |items| ==> !Defines(items[i], name)
    ensures Contributions(t, items, name) == [] && name !in Meaning(t, items)
  {
    if items != [] {
      var n := |items| - 1;
      NeverDefined(t, items[..n], name);
      KeysGrow(t, items);
      assert !Defines(items[n], name);
    }
  }

  /** A symbol defined once and then extended holds exactly the pieces written for it. */
  lemma {:induction false} CollectedIsConcatenation(t: Table, items: seq<Item>, name: string)
    requires Readable(t, items) && name !in t && DefinedThenExtended(items, name)
    ensures Collected(t, items, name) == Contributions(t, items, name)
  {
    if items != [] {
      var n := |items| - 1;
      var init := items[..n];
      CollectedIsConcatenation(t, init, name);
      if Defines(items[n], name) && items[n].def.op != Append {
        NeverDefined(t, init, name);
      }
    }
  }

  /** What the file defines is in the table at its end. */
  lemma {:induction false} DefinedIsKnown(t: Table, items: seq<Item>, k: nat)
    requires Readable(t, items) && k < |items| && items[k].Def?
    ensures items[k].def.name in Meaning(t, items)
    decreases |items|
  {
    KeysGrow(t, items);
    if k < |items| - 1 {
      DefinedIsKnown(t, items[..|items| - 1], k);
    }
  }
}
