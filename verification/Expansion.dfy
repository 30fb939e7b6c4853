/**
 Variable expansion in source lists: what `SourceListParser._expand_value`
 computes, and what that means.  A value is read as literal text and `$(name)`
 references; each reference is replaced by the symbol's value, and replaced
 text is not looked at again.
 */
module Expansion {
  import opened Common
  import opened Text

  type Table = map<string, string>

  /** Everything that makes the parser raise. */
  datatype Error =
    | NonVariableDereference | UnterminatedDereference     // RuntimeError from `_next_dereference`
    | NotADefinition | UnsupportedOperator                 // RuntimeError from `_parse_definition`
    | RecipeLine                                           // RuntimeError from `_parse_line`
    | KeyError(name: string)                               // unknown symbol
    | IndexError                                           // a `$` or a white-space line cut short

  function Prepend(s: string, r: Result<string, Error>): Result<string, Error> {
    if r.Ok? then Ok(s + r.value) else r
  }

  /** The length of the name in a reference that starts `val`, if it is well formed. */
  function RefName(val: string): Result<nat, Error>
    requires val != [] && val[0] == '$'
  {
    if |val| == 1 then Err(IndexError)
    else if val[1] != '(' then Err(NonVariableDereference)
    else
      var k := IndexOf(val[2..], ')');
      if k == |val| - 2 then Err(UnterminatedDereference) else Ok(k)
  }

  /** Expansion, one character or one reference at a time. */
  function Expand(t: Table, val: string): Result<string, Error>
    decreases |val|
  {
    if val == [] then Ok([])
    else if val[0] != '$' then Prepend([val[0]], Expand(t, val[1..]))
    else
      match RefName(val)
      case Err(e) => Err(e)
      case Ok(k) =>
        var name := val[2..2 + k];
        if name !in t then Err(KeyError(name)) else Prepend(t[name], Expand(t, val[3 + k..]))
  }

  // ------------------------------------------------------------- what it means

  datatype Piece = Literal(text: string) | Ref(name: string)

  /** Literal text holds no `$`, a name ends at the first `)`. */
  predicate Clean(p: Piece) {
    match p
    case Literal(text) => '$' !in text
    case Ref(name) => ')' !in name
  }

  predicate AllClean(ps: seq<Piece>) { forall i :: 0 <= i < |ps| ==> Clean(ps[i]) }

  predicate Known(t: Table, ps: seq<Piece>) {
    forall i :: 0 <= i < |ps| ==> (ps[i].Ref? ==> ps[i].name in t)
  }

  function Render(ps: seq<Piece>): string {
    if ps == [] then ""
    else (match ps[0] case Literal(text) => text case Ref(name) => "$(" + name + ")") + Render(ps[1..])
  }

  /** One-level substitution. */
  function Substitute(t: Table, ps: seq<Piece>): string
    requires Known(t, ps)
  {
    if ps == [] then ""
    else (match ps[0] case Literal(text) => text case Ref(name) => t[name]) + Substitute(t, ps[1..])
  }

  lemma {:induction false} ExpandLiteral(t: Table, text: string, rest: string)
    requires '$' !in text
    ensures Expand(t, text + rest) == Prepend(text, Expand(t, rest))
  {
    if text == [] {
      assert text + rest == rest;
      assert Expand(t, rest).Ok? ==> text + Expand(t, rest).value == Expand(t, rest).value;
    } else {
      assert (text + rest)[1..] == text[1..] + rest;
      ExpandLiteral(t, text[1..], rest);
      if Expand(t, rest).Ok? {
        assert [text[0]] + (text[1..] + Expand(t, rest).value) == text + Expand(t, rest).value;
      }
    }
  }

  lemma ExpandRef(t: Table, name: string, rest: string)
    requires ')' !in name
    ensures Expand(t, "$(" + name + ")" + rest) ==
            (if name in t then Prepend(t[name], Expand(t, rest)) else Err(KeyError(name)))
  {
    var val := "$(" + name + ")" + rest;
    assert val[2..] == name + ")" + rest;
    IndexOfUnique(val[2..], ')', |name|);
    assert val[2..2 + |name|] == name;
    assert val[3 + |name|..] == rest;
  }

  lemma {:induction false} ExpandRendered(t: Table, ps: seq<Piece>)
    requires AllClean(ps) && Known(t, ps)
    ensures Expand(t, Render(ps)) == Ok(Substitute(t, ps))
  {
    if ps != [] {
      ExpandRendered(t, ps[1..]);
      match ps[0]
      case Literal(text) => ExpandLiteral(t, text, Render(ps[1..]));
      case Ref(name) => ExpandRef(t, name, Render(ps[1..]));
    }
  }

  lemma RefSplits(val: string)
    requires val != [] && val[0] == '$' && RefName(val).Ok?
    ensures var k := RefName(val).value;
            val == "$(" + val[2..2 + k] + ")" + val[3 + k..] && ')' !in val[2..2 + k]
  {
    var k := RefName(val).value;
    assert val[2..][k] == ')';
    assert val[2..2 + k] == val[2..][..k];
  }

  /** The reading of a value that expands. */
  lemma {:induction false} Read(t: Table, val: string) returns (ps: seq<Piece>)
    requires Expand(t, val).Ok?
    ensures AllClean(ps) && Known(t, ps) && Render(ps) == val && Expand(t, val).value == Substitute(t, ps)
    decreases |val|
  {
    if val == [] {
      ps := [];
    } else if val[0] != '$' {
      var rest := Read(t, val[1..]);
      ps := [Literal([val[0]])] + rest;
      assert ps[1..] == rest;
    } else {
      var k := RefName(val).value;
      var rest := Read(t, val[3 + k..]);
      ps := [Ref(val[2..2 + k])] + rest;
      assert ps[1..] == rest;
      RefSplits(val);
    }
  }

  /**
   Expansion succeeds with `r` exactly when the value reads as literal text and
   references to known symbols, and `r` is the one-level substitution.
   */
  lemma ExpandMeaning(t: Table, val: string, r: string)
    ensures Expand(t, val) == Ok(r) <==>
            exists ps :: AllClean(ps) && Known(t, ps) && Render(ps) == val && Substitute(t, ps) == r
  {
    if Expand(t, val) == Ok(r) {
      var ps := Read(t, val);
    }
    forall ps | AllClean(ps) && Known(t, ps) && Render(ps) == val && Substitute(t, ps) == r
      ensures Expand(t, val) == Ok(r)
    {
      ExpandRendered(t, ps);
    }
  }

  /** The value starts with something that cannot be expanded, and this is the error. */
  predicate Faulty(t: Table, val: string, e: Error) {
    match e
    case IndexError => val == "$"
    case NonVariableDereference => |val| > 1 && val[0] == '$' && val[1] != '('
    case UnterminatedDereference => "$(" <= val && ')' !in val
    case KeyError(name) => ')' !in name && "$(" + name + ")" <= val && name !in t
    case _ => false
  }

  /** Where expansion fails, and how: the part before expands, and the fault is the first one. */
  lemma {:induction false} ExpandFailure(t: Table, good: string, bad: string, e: Error)
    requires Expand(t, good).Ok? && Faulty(t, bad, e)
    ensures Expand(t, good + bad) == Err(e)
  {
    ExpandConcat(t, good, bad);
    FaultyFails(t, bad, e);
  }

  lemma {:induction false} FaultyFails(t: Table, bad: string, e: Error)
    requires Faulty(t, bad, e)
    ensures Expand(t, bad) == Err(e)
  {
    match e
    case UnterminatedDereference =>
      assert bad[0] == "$("[0] && bad[1] == "$("[1];
      assert ')' !in bad[2..];
    case KeyError(name) =>
      var ref := "$(" + name + ")";
      assert bad == ref + bad[|ref|..];
      ExpandRef(t, name, bad[|ref|..]);
    case _ =>
  }

  /** Every failure is of that kind. */
  lemma {:induction false} FailureFound(t: Table, val: string) returns (good: string, bad: string)
    requires Expand(t, val).Err?
    ensures val == good + bad && Expand(t, good).Ok? && Faulty(t, bad, Expand(t, val).error)
    decreases |val|
  {
    if val[0] != '$' {
      good, bad := FailureFound(t, val[1..]);
      ExpandLiteral(t, [val[0]], good);
      good := [val[0]] + good;
    } else if RefName(val).Err? || val[2..2 + RefName(val).value] !in t {
      good, bad := [], val;
      FaultAtStart(t, val);
    } else {
      var k := RefName(val).value;
      var name := val[2..2 + k];
      RefSplits(val);
      good, bad := FailureFound(t, val[3 + k..]);
      ExpandRef(t, name, good);
      good := "$(" + name + ")" + good;
    }
  }

  lemma {:induction false} FaultAtStart(t: Table, val: string)
    requires val != [] && val[0] == '$' && (RefName(val).Err? || val[2..2 + RefName(val).value] !in t)
    ensures Expand(t, val).Err? && Faulty(t, val, Expand(t, val).error)
  {
    if RefName(val).Ok? {
      var k := RefName(val).value;
      RefSplits(val);
      assert val[..3 + k] == "$(" + val[2..2 + k] + ")";
    } else if |val| > 1 && val[1] == '(' {
      assert val[..2] == "$(";
      forall c | c in val ensures c != ')' {
        var i :| 0 <= i < |val| && val[i] == c;
        assert i >= 2 ==> val[2..][i - 2] == c;
      }
    }
  }

  // --------------------------------------------------------------- consequences

  /** A value without `$` expands to itself, so expanding again changes nothing. */
  lemma ExpandPlain(t: Table, val: string)
    requires '$' !in val
    ensures Expand(t, val) == Ok(val)
  {
    ExpandLiteral(t, val, []);
    assert val + [] == val;
  }

  predicate NoDollar(t: Table) { forall k :: k in t ==> '$' !in t[k] }

  lemma {:induction false} ExpandNoDollar(t: Table, val: string)
    requires NoDollar(t) && Expand(t, val).Ok?
    ensures '$' !in Expand(t, val).value
    decreases |val|
  {
    if val != [] {
      ExpandNoDollar(t, if val[0] != '$' then val[1..] else val[3 + RefName(val).value..]);
    }
  }

  lemma PrependTwice(a: string, b: string, r: Result<string, Error>)
    ensures Prepend(a, Prepend(b, r)) == Prepend(a + b, r)
  {
    if r.Ok? {
      assert a + (b + r.value) == a + b + r.value;
    }
  }

  /** Two values that each expand may be joined: no reference straddles the seam. */
  lemma {:induction false} ExpandConcat(t: Table, a: string, b: string)
    requires Expand(t, a).Ok?
    ensures Expand(t, a + b) == Prepend(Expand(t, a).value, Expand(t, b))
    decreases |a|
  {
    if a == [] {
      ExpandLiteral(t, a, b);
    } else if a[0] != '$' {
      assert (a + b)[1..] == a[1..] + b;
      ExpandConcat(t, a[1..], b);
      PrependTwice([a[0]], Expand(t, a[1..]).value, Expand(t, b));
    } else {
      RefNameKept(a, b);
      var k := RefName(a).value;
      var name := a[2..2 + k];
      assert (a + b)[2..2 + k] == name;
      assert (a + b)[3 + k..] == a[3 + k..] + b;
      ExpandConcat(t, a[3 + k..], b);
      PrependTwice(t[name], Expand(t, a[3 + k..]).value, Expand(t, b));
    }
  }

  /** A complete reference is read the same whatever follows. */
  lemma RefNameKept(a: string, b: string)
    requires a != [] && a[0] == '$' && RefName(a).Ok?
    ensures RefName(a + b) == RefName(a)
  {
    var k := RefName(a).value;
    assert (a + b)[2..] == a[2..] + b;
    IndexOfUnique((a + b)[2..], ')', k);
  }

  /** A trailing character that cannot close a reference was literal text. */
  lemma {:induction false} ExpandInit(t: Table, s: string, c: char)
    requires Expand(t, s + [c]).Ok? && c != ')' && c != '$'
    ensures Expand(t, s).Ok? && Expand(t, s + [c]).value == Expand(t, s).value + [c]
    decreases |s|
  {
    var val := s + [c];
    if s == [] {
    } else if s[0] != '$' {
      assert val[1..] == s[1..] + [c];
      ExpandInit(t, s[1..], c);
    } else {
      RefNameInit(s, c);
      var k := RefName(s).value;
      assert val[2..2 + k] == s[2..2 + k];
      SuffixSnoc(s, c, 3 + k);
      ExpandInit(t, s[3 + k..], c);
    }
  }

  lemma {:induction false} SuffixSnoc(s: string, c: char, from: nat)
    requires from <= |s|
    ensures (s + [c])[from..] == s[from..] + [c]
  {
  }

  lemma RefNameInit(s: string, c: char)
    requires s != [] && s[0] == '$' && RefName(s + [c]).Ok? && c != ')'
    ensures RefName(s) == RefName(s + [c])
  {
    var val := s + [c];
    var k := RefName(val).value;
    assert |val| > 2 && val[2..] == s[2..] + [c];
    assert val[2..][k] == ')' && val[2..][|s| - 2] == c;
    assert k < |s[2..]| && s[2..][k] == val[2..][k];
    assert forall i :: 0 <= i < k ==> s[2..][i] == val[2..][i];
    IndexOfUnique(s[2..], ')', k);
  }

  /** Stripping the white space of a value strips that of its expansion and keeps its words. */
  lemma {:induction false} ExpandLStrip(t: Table, s: string)
    requires Expand(t, s).Ok?
    ensures Expand(t, LStrip(s)).Ok? && Words(Expand(t, LStrip(s)).value) == Words(Expand(t, s).value)
  {
    if s != [] && IsSpace(s[0]) {
      assert s == [s[0]] + s[1..];
      ExpandLiteral(t, [s[0]], s[1..]);
      ExpandLStrip(t, s[1..]);
      var e := Expand(t, s[1..]).value;
      assert ([s[0]] + e)[1..] == e;
    }
  }

  lemma {:induction false} ExpandRStrip(t: Table, s: string)
    requires Expand(t, s).Ok?
    ensures Expand(t, RStrip(s)).Ok? && Words(Expand(t, RStrip(s)).value) == Words(Expand(t, s).value)
  {
    if s != [] && IsSpace(s[|s| - 1]) {
      var init, c := s[..|s| - 1], s[|s| - 1];
      assert s == init + [c];
      ExpandInit(t, init, c);
      ExpandRStrip(t, init);
      var e := Expand(t, init).value;
      assert e + [c] == e + [c] + [];
      WordsAround(e, c, []);
    }
  }

  lemma ExpandStrip(t: Table, s: string)
    requires Expand(t, s).Ok?
    ensures Expand(t, Strip(s)).Ok? && Words(Expand(t, Strip(s)).value) == Words(Expand(t, s).value)
  {
    ExpandLStrip(t, s);
    ExpandRStrip(t, LStrip(s));
  }
}
