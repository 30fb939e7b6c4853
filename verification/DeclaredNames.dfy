/**
 Which files can be read piece by piece.  Whether the pieces of a definition
 expand depends on the names known so far and not on their values, so it can be
 decided from the text of the file.
 */
module DeclaredNames {
  import opened Common
  import opened Text
  import opened Expansion
  import opened WordConservation

  /** Every `$` starts a complete reference to one of `names`. */
  predicate Scans(names: set<string>, val: string)
    decreases |val|
  {
    val == [] ||
    if val[0] != '$' then Scans(names, val[1..])
    else
      match RefName(val)
      case Err(_) => false
      case Ok(k) => val[2..2 + k] in names && Scans(names, val[3 + k..])
  }

  lemma {:induction false} ExpandsIffScans(t: Table, val: string)
    ensures Expand(t, val).Ok? <==> Scans(t.Keys, val)
    decreases |val|
  {
    if val == [] {
    } else if val[0] != '$' {
      ExpandsIffScans(t, val[1..]);
    } else if RefName(val).Ok? {
      ExpandsIffScans(t, val[3 + RefName(val).value..]);
    }
  }

  /** The item can be read once `names` are known. */
  predicate Admissible(names: set<string>, item: Item) {
    match item
    case Note(line) => IsNote(line)
    case Def(d) =>
      && WellFormed(d) && (d.op == Append ==> d.name in names)
      && forall i :: 0 <= i < |d.pieces| ==> Scans(names, d.pieces[i])
  }

  function NamesAfter(names: set<string>, items: seq<Item>): set<string> {
    names + set i | 0 <= i < |items| && items[i].Def? :: items[i].def.name
  }

  /** Every item uses only names that are seeded or defined above it. */
  predicate DeclaredInOrder(names: set<string>, items: seq<Item>) {
    forall k :: 0 <= k < |items| ==> Admissible(NamesAfter(names, items[..k]), items[k])
  }

  lemma {:induction false} ReadableItemIff(t: Table, item: Item)
    ensures ReadableItem(t, item) <==> Admissible(t.Keys, item)
  {
    if item.Def? {
      forall i | 0 <= i < |item.def.pieces|
        ensures Expand(t, item.def.pieces[i]).Ok? <==> Scans(t.Keys, item.def.pieces[i])
      {
        ExpandsIffScans(t, item.def.pieces[i]);
      }
    }
  }

  lemma {:induction false} NamesAfterInit(names: set<string>, items: seq<Item>)
    requires items != []
    ensures var n := |items| - 1;
            NamesAfter(names, items) ==
            NamesAfter(names, items[..n]) + (if items[n].Def? then {items[n].def.name} else {})
  {
    var n := |items| - 1;
    var init := items[..n];
    var all, early := NamesAfter(names, items), NamesAfter(names, init);
    assert forall i :: 0 <= i < n ==> init[i] == items[i];
    forall x | x in early ensures x in all {
      if x !in names {
        var i :| 0 <= i < n && init[i].Def? && init[i].def.name == x;
        assert items[i] == init[i];
      }
    }
    forall x | x in all && x !in early ensures items[n].Def? && x == items[n].def.name {
      var i :| 0 <= i < |items| && items[i].Def? && items[i].def.name == x;
    }
    assert items[n].Def? ==> items[n].def.name in all;
  }

  /** The symbols at the end of a file are the seeds and what the file defines. */
  lemma {:induction false} KeysAfter(t: Table, items: seq<Item>)
    requires Readable(t, items)
    ensures Meaning(t, items).Keys == NamesAfter(t.Keys, items)
  {
    if items != [] {
      KeysAfter(t, items[..|items| - 1]);
      KeysGrow(t, items);
      NamesAfterInit(t.Keys, items);
    }
  }

  lemma {:induction false} DeclaredInit(names: set<string>, items: seq<Item>)
    requires items != []
    ensures var n := |items| - 1;
            DeclaredInOrder(names, items) <==>
            DeclaredInOrder(names, items[..n]) && Admissible(NamesAfter(names, items[..n]), items[n])
  {
    var n := |items| - 1;
    forall k | 0 <= k < n ensures items[..n][..k] == items[..k] && items[..n][k] == items[k] {
    }
  }

  /** A file can be read piece by piece exactly if every item uses only names declared above it. */
  lemma {:induction false} ReadableIffDeclared(t: Table, items: seq<Item>)
    ensures Readable(t, items) <==> DeclaredInOrder(t.Keys, items)
  {
    if items != [] {
      var n := |items| - 1;
      ReadableIffDeclared(t, items[..n]);
      DeclaredInit(t.Keys, items);
      if Readable(t, items[..n]) {
        KeysAfter(t, items[..n]);
        ReadableItemIff(Meaning(t, items[..n]), items[n]);
      }
    }
  }

  // ------------------------------------------------------- files without references

  predicate DollarFree(items: seq<Item>) {
    forall i, j :: 0 <= i < |items| && items[i].Def? && 0 <= j < |items[i].def.pieces| ==>
      '$' !in items[i].def.pieces[j]
  }

  /** The words of the pieces as they are written. */
  function PlainWords(pieces: seq<string>): seq<string> {
    if pieces == [] then [] else Words(pieces[0]) + PlainWords(pieces[1..])
  }

  /** The words written for `name`, in file order. */
  function WrittenFor(items: seq<Item>, name: string): seq<string> {
    if items == [] then []
    else
      var n := |items| - 1;
      WrittenFor(items[..n], name) + (if Defines(items[n], name) then PlainWords(items[n].def.pieces) else [])
  }

  lemma {:induction false} PlainPieces(t: Table, pieces: seq<string>)
    requires forall j :: 0 <= j < |pieces| ==> '$' !in pieces[j]
    ensures AllExpand(t, pieces) && PieceWords(t, pieces) == PlainWords(pieces)
  {
    forall j | 0 <= j < |pieces| ensures Expand(t, pieces[j]) == Ok(pieces[j]) {
      ExpandPlain(t, pieces[j]);
    }
    if pieces != [] {
      PlainPieces(t, pieces[1..]);
    }
  }

  lemma {:induction false} PlainContributions(t: Table, items: seq<Item>, name: string)
    requires Readable(t, items) && DollarFree(items)
    ensures Contributions(t, items, name) == WrittenFor(items, name)
  {
    if items != [] {
      var n := |items| - 1;
      PlainContributions(t, items[..n], name);
      if Defines(items[n], name) {
        PlainPieces(Meaning(t, items[..n]), items[n].def.pieces);
      }
    }
  }

  lemma {:induction false} PlainScans(names: set<string>, val: string)
    requires '$' !in val
    ensures Scans(names, val)
  {
    if val != [] {
      PlainScans(names, val[1..]);
    }
  }

  /** A definition without references can be read as soon as `+=` has something to extend. */
  lemma {:induction false} PlainAdmissible(names: set<string>, d: Definition)
    requires WellFormed(d) && (d.op == Append ==> d.name in names)
    requires forall j :: 0 <= j < |d.pieces| ==> '$' !in d.pieces[j]
    ensures Admissible(names, Def(d))
  {
    forall j | 0 <= j < |d.pieces| ensures Scans(names, d.pieces[j]) {
      PlainScans(names, d.pieces[j]);
    }
  }

  lemma {:induction false} FileLinesSnoc(items: seq<Item>, item: Item)
    ensures FileLines(items + [item]) == FileLines(items) + ItemLines(item)
  {
    assert (items + [item])[..|items|] == items;
  }

  lemma {:induction false} LinesOfOne(a: Item)
    ensures FileLines([a]) == ItemLines(a)
  {
    var none: seq<Item> := [];
    FileLinesSnoc(none, a);
    assert none + [a] == [a];
    assert FileLines(none) + ItemLines(a) == ItemLines(a);
  }

  lemma {:induction false} LinesOfTwo(a: Item, b: Item)
    ensures FileLines([a, b]) == ItemLines(a) + ItemLines(b)
  {
    LinesOfOne(a);
    FileLinesSnoc([a], b);
    assert [a] + [b] == [a, b];
  }

  lemma {:induction false} WrittenInTwo(a: Item, b: Item, name: string)
    requires Defines(a, name) && Defines(b, name)
    ensures WrittenFor([a, b], name) == PlainWords(a.def.pieces) + PlainWords(b.def.pieces)
  {
    assert [a][..0] == [];
    assert WrittenFor([a], name) == [] + PlainWords(a.def.pieces);
    assert [a, b][..1] == [a];
  }

  lemma {:induction false} TwoDeclared(names: set<string>, d: Definition, e: Definition)
    requires WellFormed(d) && WellFormed(e) && d.op != Append && e.op == Append && d.name == e.name
    requires DollarFree([Def(d), Def(e)])
    ensures DeclaredInOrder(names, [Def(d), Def(e)])
  {
    var items := [Def(d), Def(e)];
    assert items[0].Def? && items[1].Def?;
    PlainAdmissible(NamesAfter(names, items[..0]), d);
    assert items[..1][0] == Def(d);
    PlainAdmissible(NamesAfter(names, items[..1]), e);
  }
}
