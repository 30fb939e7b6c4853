/**
 Continuation lines.  A source list is read as logical lines: blocks of physical
 lines in which every line but the last ends with a backslash.  Feeding the
 physical lines to the parser is the same as executing the logical ones.
 */
module LogicalLines {
  import opened Common
  import opened Text
  import opened Expansion
  import opened SourceList

  predicate OpenBlock(block: seq<string>) {
    forall i :: 0 <= i < |block| ==> Continued(block[i])
  }

  predicate CompleteBlock(block: seq<string>) {
    block != [] && OpenBlock(block[..|block| - 1]) && !Continued(block[|block| - 1])
  }

  /** The parts joined by single spaces. */
  function Spaced(parts: seq<string>): string
    requires parts != []
  {
    if |parts| == 1 then parts[0] else parts[0] + " " + Spaced(parts[1..])
  }

  /** Line `i` without its backslash and the spaces around the line breaks. */
  function OpenPart(block: seq<string>, i: nat): string
    requires OpenBlock(block) && i < |block|
  {
    if i == 0 then RStrip(Body(block[i])) else Strip(Body(block[i]))
  }

  function OpenParts(block: seq<string>): (r: seq<string>)
    requires OpenBlock(block)
    ensures |r| == |block| && forall i :: 0 <= i < |r| ==> r[i] == OpenPart(block, i)
  {
    seq(|block|, i requires 0 <= i < |block| => OpenPart(block, i))
  }

  function Parts(block: seq<string>): (r: seq<string>)
    requires CompleteBlock(block)
    ensures |r| == |block|
  {
    var n := |block| - 1;
    if n == 0 then block else OpenParts(block[..n]) + [LStrip(block[n])]
  }

  /** The logical line a block stands for. */
  function Join(block: seq<string>): string
    requires CompleteBlock(block)
  {
    Spaced(Parts(block))
  }

  lemma {:induction false} SpacedSnoc(parts: seq<string>, last: string)
    requires parts != []
    ensures Spaced(parts + [last]) == Spaced(parts) + " " + last
  {
    var all := parts + [last];
    if |parts| == 1 {
      assert all[1..] == [last];
    } else {
      assert all[1..] == parts[1..] + [last];
      SpacedSnoc(parts[1..], last);
      assert parts[0] + " " + (Spaced(parts[1..]) + " " + last) == parts[0] + " " + Spaced(parts[1..]) + " " + last;
    }
  }

  /** While a block is open its text so far waits in `line_cont`, ending in a space. */
  lemma {:induction false} FeedOpen(p: Progress, block: seq<string>)
    requires p.error == None && p.cont == [] && OpenBlock(block)
    ensures Feed(p, block) == if block == [] then p else p.(cont := Spaced(OpenParts(block)) + " ")
  {
    if block != [] {
      var n := |block| - 1;
      FeedOpen(p, block[..n]);
      var x := Strip(Body(block[n]));
      if n > 0 {
        assert OpenParts(block) == OpenParts(block[..n]) + [x];
        SpacedSnoc(OpenParts(block[..n]), x);
        var s := Spaced(OpenParts(block[..n]));
        assert s + " " + (x + " ") == s + " " + x + " ";
      }
    }
  }

  lemma FeedBlock(p: Progress, block: seq<string>)
    requires p.cont == [] && CompleteBlock(block)
    ensures Feed(p, block) == Execute(p, Join(block))
  {
    if p.error.Some? {
      FeedStuck(p, block, 0);
    } else {
      var n := |block| - 1;
      FeedOpen(p, block[..n]);
      if n > 0 {
        SpacedSnoc(OpenParts(block[..n]), LStrip(block[n]));
      }
    }
  }

  lemma {:induction false} FeedConcat(p: Progress, a: seq<string>, b: seq<string>)
    ensures Feed(p, a + b) == Feed(Feed(p, a), b)
  {
    if b == [] {
      assert a + b == a;
    } else {
      var n := |b| - 1;
      assert (a + b)[..|a| + n] == a + b[..n];
      FeedConcat(p, a, b[..n]);
    }
  }

  function Flatten(blocks: seq<seq<string>>): seq<string> {
    if blocks == [] then [] else blocks[0] + Flatten(blocks[1..])
  }

  predicate AllComplete(blocks: seq<seq<string>>) {
    forall i :: 0 <= i < |blocks| ==> CompleteBlock(blocks[i])
  }

  function ExecuteAll(p: Progress, blocks: seq<seq<string>>): Progress
    requires AllComplete(blocks)
    decreases |blocks|
  {
    if blocks == [] then p else ExecuteAll(Execute(p, Join(blocks[0])), blocks[1..])
  }

  lemma ExecuteKeepsCont(p: Progress, line: string)
    ensures Execute(p, line).cont == p.cont
  {
  }

  lemma {:induction false} FeedBlocks(p: Progress, blocks: seq<seq<string>>)
    requires p.cont == [] && AllComplete(blocks)
    ensures Feed(p, Flatten(blocks)) == ExecuteAll(p, blocks) && ExecuteAll(p, blocks).cont == []
    decreases |blocks|
  {
    if blocks != [] {
      FeedBlock(p, blocks[0]);
      FeedConcat(p, blocks[0], Flatten(blocks[1..]));
      ExecuteKeepsCont(p, Join(blocks[0]));
      FeedBlocks(Execute(p, Join(blocks[0])), blocks[1..]);
    }
  }

  /** How a list of physical lines falls into blocks; a file may end inside one. */
  predicate Grouping(lines: seq<string>, blocks: seq<seq<string>>, rest: seq<string>) {
    AllComplete(blocks) && OpenBlock(rest) && lines == Flatten(blocks) + rest
  }

  lemma {:induction false} FlattenSnoc(blocks: seq<seq<string>>, block: seq<string>)
    ensures Flatten(blocks + [block]) == Flatten(blocks) + block
  {
    if blocks == [] {
      assert (blocks + [block])[1..] == [];
    } else {
      assert (blocks + [block])[1..] == blocks[1..] + [block];
      FlattenSnoc(blocks[1..], block);
    }
  }

  lemma {:induction false} EveryFileGroups(lines: seq<string>) returns (blocks: seq<seq<string>>, rest: seq<string>)
    ensures Grouping(lines, blocks, rest)
  {
    if lines == [] {
      blocks, rest := [], [];
    } else {
      var n := |lines| - 1;
      blocks, rest := EveryFileGroups(lines[..n]);
      assert lines == lines[..n] + [lines[n]];
      if Continued(lines[n]) {
        rest := rest + [lines[n]];
      } else {
        var block := rest + [lines[n]];
        assert block[..|block| - 1] == rest;
        FlattenSnoc(blocks, block);
        blocks, rest := blocks + [block], [];
      }
    }
  }

  /**
   Physical lines refine logical lines: same symbols, same count, same error; a
   block left open at the end of the file is not executed, and `line_cont` is
   non-empty exactly then.
   */
  lemma ContinuationRefinement(p: Progress, lines: seq<string>, blocks: seq<seq<string>>, rest: seq<string>)
    requires p.cont == [] && p.error == None && Grouping(lines, blocks, rest)
    ensures var q := ExecuteAll(p, blocks);
            && Feed(p, lines) == (if q.error.Some? || rest == [] then q
                                  else q.(cont := Spaced(OpenParts(rest)) + " "))
            && (Feed(p, lines).cont != [] <==> q.error == None && rest != [])
  {
    FeedBlocks(p, blocks);
    FeedConcat(p, Flatten(blocks), rest);
    var q := ExecuteAll(p, blocks);
    if q.error.Some? {
      FeedStuck(q, rest, 0);
    } else {
      FeedOpen(q, rest);
    }
  }

  // -------------------------------------------------------------- stored values

  lemma DefineNoDollar(t: Table, line: string)
    requires NoDollar(t) && Define(t, line).Ok?
    ensures NoDollar(Define(t, line).value)
  {
    var val := LStrip(line[IndexOf(line, '=') + 1..]);
    ExpandNoDollar(t, val);
  }

  /** If the seeded symbols hold no `$`, no value ever does. */
  lemma {:induction false} FeedNoDollar(p: Progress, lines: seq<string>)
    requires NoDollar(p.table)
    ensures NoDollar(Feed(p, lines).table)
  {
    if lines != [] {
      var n := |lines| - 1;
      var q := Feed(p, lines[..n]);
      FeedNoDollar(p, lines[..n]);
      var line := LStrip(if q.cont != [] then q.cont + LStrip(lines[n]) else lines[n]);
      if Define(q.table, line).Ok? {
        DefineNoDollar(q.table, line);
      }
    }
  }

  /** Expanding a stored value again, now or after any further lines, changes nothing. */
  lemma StoredValuesAreFixed(p: Progress, lines: seq<string>, later: seq<string>, name: string)
    requires NoDollar(p.table) && name in Feed(p, lines).table
    ensures var stored := Feed(p, lines).table[name];
            Expand(Feed(p, lines + later).table, stored) == Ok(stored)
  {
    FeedNoDollar(p, lines);
    ExpandPlain(Feed(p, lines + later).table, Feed(p, lines).table[name]);
  }
}
