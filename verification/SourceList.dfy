/**
 The source-list parser: a small subset of GNU Make with continuation lines,
 eager expansion and the operators `=`, `:=`, `+=` and `?=`.  The specification
 is a fold over lines; `SourceListParser` is the object of the build scripts.
 */
module SourceList {
  import opened Common
  import opened Text
  import opened Expansion

  /** The meaning of one definition line. */
  function Define(t: Table, line: string): Result<Table, Error> {
    var eq := IndexOf(line, '=');
    if eq == |line| then Err(NotADefinition)
    else if eq == 0 then Err(UnsupportedOperator)
    else
      var start := if line[eq - 1] in {':', '+', '?'} then eq - 1 else eq;
      Assign(t, Strip(line[..start]), line[start..eq + 1], Expand(t, LStrip(line[eq + 1..])))
  }

  function Assign(t: Table, sym: string, op: string, val: Result<string, Error>): Result<Table, Error> {
    match val
    case Err(e) => Err(e)
    case Ok(v) =>
      if op == "=" || op == ":=" then Ok(t[sym := v])
      else if op == "+=" then
        if sym in t then Ok(t[sym := t[sym] + (" " + v)]) else Err(KeyError(sym))
      else if op == "?=" && sym !in t then Ok(t[sym := v])
      else Ok(t)
  }

  /** A parser between two physical lines: symbols, open continuation, lines completed, first error. */
  datatype Progress = Progress(table: Table, cont: string, complete: nat, error: Option<Error>)

  /** The meaning of one logical line. */
  function Execute(p: Progress, line: string): Progress {
    if p.error.Some? then p
    else if line == [] then p.(complete := p.complete + 1)
    else
      var stripped := LStrip(line);
      if stripped == [] then p.(error := Some(IndexError))
      else if stripped[0] == '#' then p.(complete := p.complete + 1)
      else if line[0] == '\t' then p.(error := Some(RecipeLine))
      else
        match Define(p.table, stripped)
        case Err(e) => p.(error := Some(e))
        case Ok(t) => p.(table := t, complete := p.complete + 1)
  }

  /** What is no definition: no `=` at all, or nothing before it. */
  lemma DefineErrors(t: Table, line: string)
    ensures '=' !in line ==> Define(t, line) == Err(NotADefinition)
    ensures line != [] && line[0] == '=' ==> Define(t, line) == Err(UnsupportedOperator)
  {
    if '=' !in line {
      IndexOfUnique(line, '=', |line|);
    }
  }

  /**
   What a logical line does, by its first character that is not white space: none is
   an error, `#` starts a comment, anything else a definition, unless a tab begins
   the line.
   */
  lemma {:induction false} LineKinds(p: Progress, pad: string, text: string)
    requires p.error == None && AllSpace(pad) && (text == [] || !IsSpace(text[0]))
    ensures Execute(p, pad + text) ==
            if pad == [] && text == [] then p.(complete := p.complete + 1)
            else if text == [] then p.(error := Some(IndexError))
            else if text[0] == '#' then p.(complete := p.complete + 1)
            else if pad != [] && pad[0] == '\t' then p.(error := Some(RecipeLine))
            else
              match Define(p.table, text)
              case Ok(t) => p.(table := t, complete := p.complete + 1)
              case Err(e) => p.(error := Some(e))
  {
    LStripMeaning(pad, text);
    if pad == [] {
      assert pad + text == text;
    }
  }

  predicate Continued(line: string) { line != [] && line[|line| - 1] == '\\' }

  function Body(line: string): string
    requires Continued(line)
  {
    line[..|line| - 1]
  }

  /** One physical line, as `_parse_line` takes it. */
  function FeedLine(p: Progress, line: string): Progress {
    if p.error.Some? then p
    else if Continued(line) then
      p.(cont := if p.cont != [] then p.cont + (Strip(Body(line)) + " ") else RStrip(Body(line)) + " ")
    else if p.cont != [] then Execute(p.(cont := []), p.cont + LStrip(line))
    else Execute(p, line)
  }

  function Feed(p: Progress, lines: seq<string>): Progress {
    if lines == [] then p
    else FeedLine(Feed(p, lines[..|lines| - 1]), lines[|lines| - 1])
  }

  /** What the scan for the next `$` skips is literal text; there the reference is resolved. */
  lemma ExpandToReference(t: Table, val: string, cur: nat, p: nat)
    requires cur <= p < |val| && '$' !in val[cur..p] && val[p] == '$'
    ensures match RefName(val[p..])
            case Err(e) => Expand(t, val[cur..]) == Err(e)
            case Ok(k) =>
              && p + 3 + k <= |val|
              && var name := val[p + 2..p + 2 + k];
              Expand(t, val[cur..]) ==
              if name in t then Prepend(val[cur..p], Prepend(t[name], Expand(t, val[p + 3 + k..])))
              else Err(KeyError(name))
  {
    assert val[cur..] == val[cur..p] + val[p..];
    ExpandLiteral(t, val[cur..p], val[p..]);
    if RefName(val[p..]).Ok? {
      var k := RefName(val[p..]).value;
      assert val[p..][2..2 + k] == val[p + 2..p + 2 + k];
      assert val[p..][3 + k..] == val[p + 3 + k..];
    }
  }

  /** The loop invariant of `_expand_value`. */
  ghost predicate Expanding(t: Table, val: string, expanded: string, cur: nat) {
    cur <= |val| && Expand(t, val) == Prepend(expanded, Expand(t, val[cur..]))
  }

  lemma ExpandingFromStart(t: Table, val: string)
    ensures Expanding(t, val, "", 0)
  {
    assert val[0..] == val;
    assert Expand(t, val).Ok? ==> "" + Expand(t, val).value == Expand(t, val).value;
  }

  lemma ExpandingNext(t: Table, val: string, expanded: string, cur: nat, p: nat, q: nat)
    requires Expanding(t, val, expanded, cur) && cur <= p < |val| && '$' !in val[cur..p] && val[p] == '$'
    requires q >= p + 3 && RefName(val[p..]) == Ok(q - p - 3)
    ensures q <= |val|
    ensures var sym := val[p + 2..q - 1];
            if sym in t then Expanding(t, val, expanded + (val[cur..p] + t[sym]), q)
            else Expand(t, val) == Err(KeyError(sym))
  {
    ExpandToReference(t, val, cur, p);
    var sym := val[p + 2..q - 1];
    if sym in t {
      PrependTwice(val[cur..p], t[sym], Expand(t, val[q..]));
      PrependTwice(expanded, val[cur..p] + t[sym], Expand(t, val[q..]));
    }
  }

  // ------------------------------------------------------------------- the object

  class SourceListParser {
    var symbolTable: Table
    var filename: Option<string>
    var lineNo: nat
    var lineCont: string

    constructor ()
      ensures symbolTable == map[] && filename == None && lineNo == 1 && lineCont == []
    {
      symbolTable := map[];
      filename, lineNo, lineCont := None, 1, [];
    }

    method Reset(filename: Option<string>)
      modifies `filename, `lineNo, `lineCont
      ensures this.filename == filename && lineNo == 1 && lineCont == []
    {
      this.filename := filename;
      lineNo, lineCont := 1, [];
    }

    /** Locates the next `$(...)` at or after `cur`; (-1, -1) if there is none. */
    method NextDereference(val: string, cur: nat) returns (r: Result<(int, int), Error>)
      requires cur <= |val|
      ensures match r
              case Ok((p, q)) =>
                if p < 0 then p == q == -1 && '$' !in val[cur..]
                else cur <= p < q <= |val| && '$' !in val[cur..p] && val[p] == '$'
                     && q >= p + 3 && RefName(val[p..]) == Ok(q - p - 3)
              case Err(e) =>
                exists p :: cur <= p < |val| && '$' !in val[cur..p] && val[p] == '$' && RefName(val[p..]) == Err(e)
    {
      var derefPos := cur + IndexOf(val[cur..], '$');
      assert val[cur..derefPos] == val[cur..][..derefPos - cur];
      if derefPos == |val| {
        return Ok((-1, -1));
      }
      assert val[cur..][derefPos - cur] == '$';
      if derefPos + 1 == |val| {
        return Err(IndexError);
      }
      if val[derefPos + 1] != '(' {
        return Err(NonVariableDereference);
      }
      assert val[derefPos..][2..] == val[derefPos + 2..];
      var derefEnd := derefPos + 2 + IndexOf(val[derefPos + 2..], ')');
      if derefEnd == |val| {
        return Err(UnterminatedDereference);
      }
      return Ok((derefPos, derefEnd + 1));
    }

    method ExpandValue(val: string) returns (r: Result<string, Error>)
      ensures r == Expand(symbolTable, val)
    {
      var expanded, cur := "", 0;
      ExpandingFromStart(symbolTable, val);
      while true
        invariant Expanding(symbolTable, val, expanded, cur)
        decreases |val| - cur
      {
        var next := NextDereference(val, cur);
        if next.Err? {
          ghost var p :| cur <= p < |val| && '$' !in val[cur..p] && val[p] == '$'
                         && RefName(val[p..]) == Err(next.error);
          ExpandToReference(symbolTable, val, cur, p);
          return Err(next.error);
        }
        var (derefPos, derefEnd) := next.value;
        if derefPos < 0 {
          ExpandPlain(symbolTable, val[cur..]);
          expanded := expanded + val[cur..];
          break;
        }
        var sym := val[derefPos + 2..derefEnd - 1];
        ExpandingNext(symbolTable, val, expanded, cur, derefPos, derefEnd);
        if sym !in symbolTable {
          return Err(KeyError(sym));
        }
        expanded := expanded + (val[cur..derefPos] + symbolTable[sym]);
        cur := derefEnd;
      }
      return Ok(expanded);
    }

    method ParseDefinition(line: string) returns (error: Option<Error>)
      modifies `symbolTable
      ensures match Define(old(symbolTable), line)
              case Ok(t) => error == None && symbolTable == t
              case Err(e) => error == Some(e) && symbolTable == old(symbolTable)
    {
      var opPos := IndexOf(line, '=');
      var opEnd := opPos + 1;
      if opPos == |line| {
        return Some(NotADefinition);
      }
      if opPos > 0 {
        if line[opPos - 1] in {':', '+', '?'} {
          opPos := opPos - 1;
        }
      } else {
        return Some(UnsupportedOperator);
      }
      var op := line[opPos..opEnd];
      var sym := Strip(line[..opPos]);
      var val := ExpandValue(LStrip(line[opEnd..]));
      if val.Err? {
        return Some(val.error);
      }
      if op == "=" || op == ":=" {
        symbolTable := symbolTable[sym := val.value];
      } else if op == "+=" {
        if sym !in symbolTable {
          return Some(KeyError(sym));
        }
        symbolTable := symbolTable[sym := symbolTable[sym] + (" " + val.value)];
      } else if op == "?=" {
        if sym !in symbolTable {
          symbolTable := symbolTable[sym := val.value];
        }
      }
      return None;
    }

    /** The parser's state as the specification sees it. */
    ghost function State(complete: nat): Progress
      reads this
    {
      Progress(symbolTable, lineCont, complete, None)
    }

    /** Returns by how much the line counter advances. */
    method ParseLine(physical: string) returns (r: Result<nat, Error>)
      modifies `symbolTable, `lineCont
      ensures forall n: nat ::
                var p := FeedLine(old(State(n)), physical);
                && symbolTable == p.table && lineCont == p.cont
                && (match r
                    case Ok(k) => p.error == None && p.complete == n + k
                    case Err(e) => p.error == Some(e))
    {
      var line := physical;
      if line != [] && line[|line| - 1] == '\\' {
        if lineCont != [] {
          lineCont := lineCont + (Strip(line[..|line| - 1]) + " ");
        } else {
          lineCont := RStrip(line[..|line| - 1]) + " ";
        }
        return Ok(0);
      }
      if lineCont != [] {
        line := lineCont + LStrip(line);
        lineCont := [];
      }
      if line != [] {
        var beginsWithTab := line[0] == '\t';
        line := LStrip(line);
        if line == [] {
          return Err(IndexError);
        }
        if line[0] != '#' {
          if beginsWithTab {
            return Err(RecipeLine);
          }
          var error := ParseDefinition(line);
          if error.Some? {
            return Err(error.value);
          }
        }
      }
      return Ok(1);
    }

    /** Parses a file given as its lines, unless it is the file parsed last. */
    method Parse(name: string, lines: seq<string>) returns (r: Result<Table, Error>)
      modifies this
      ensures old(filename) == Some(name) ==>
                r == Ok(symbolTable) && symbolTable == old(symbolTable) && filename == old(filename)
                && lineNo == old(lineNo) && lineCont == old(lineCont)
      ensures old(filename) != Some(name) ==>
                var p := Feed(Progress(old(symbolTable), [], 0, None), lines);
                && symbolTable == p.table
                && (match p.error
                    case None =>
                      r == Ok(p.table) && filename == Some(name) && lineNo == 1 + p.complete && lineCont == p.cont
                    case Some(e) => r == Err(e) && filename == None && lineNo == 1 && lineCont == [])
    {
      if filename != Some(name) {
        Reset(Some(name));
        ghost var start := State(0);
        for i := 0 to |lines|
          invariant filename == Some(name) && lineNo >= 1
          invariant Feed(start, lines[..i]) == State(lineNo - 1)
        {
          assert lines[..i + 1][..i] == lines[..i];
          var advance := ParseLine(lines[i]);
          if advance.Err? {
            FeedStuck(start, lines, i + 1);
            Reset(None);
            return Err(advance.error);
          }
          lineNo := lineNo + advance.value;
        }
        assert lines[..|lines|] == lines;
      }
      return Ok(symbolTable);
    }

    method AddSymbol(name: string, value: string)
      modifies `symbolTable
      ensures symbolTable == old(symbolTable)[name := value]
    {
      symbolTable := symbolTable[name := value];
    }
  }

  /** Nothing is read after an error. */
  lemma {:induction false} FeedStuck(p: Progress, lines: seq<string>, k: nat)
    requires k <= |lines| && Feed(p, lines[..k]).error.Some?
    ensures Feed(p, lines) == Feed(p, lines[..k])
    decreases |lines|
  {
    if k == |lines| {
      assert lines[..k] == lines;
    } else {
      var init := lines[..|lines| - 1];
      assert init[..k] == lines[..k];
      FeedStuck(p, init, k);
    }
  }
}
