/** Reading a rendered table back into a report.

    The renderer escapes nothing, so the table determines the report only when
    no contract or method name contains `<`. Under that condition, and for any
    markup whose templates are laid out like the source's (`Unambiguous`),
    parsing the rendered table recovers the report exactly: every field was
    embedded verbatim, in order, with one row per method and one block per
    contract. Without the condition two different reports can render to the
    same text (`UnescapedNamesCollide`). */
module Parser {
  import opened Options
  import opened Values
  import opened GasReport
  import opened Templates
  import opened Joins
  import opened Renderer

  /** Neither string is a prefix of the other: they differ at some position
      both have, so no text can start with both. */
  predicate Incomparable(a: string, b: string) {
    !(a <= b) && !(b <= a)
  }

  /** Markup the parser can read back: every fixed string that closes a hole
      starts with a tag, the row and block templates start with non-empty
      text, and a method row, a block and the closing tag can be told apart by
      their first characters. */
  predicate Unambiguous(m: Markup) {
    && (forall i :: 1 <= i < 4 ==> StartsTag(m.block[i]))
    && (forall i :: 1 <= i < 7 ==> StartsTag(m.methodRow[i]))
    && m.block[0] != []
    && m.methodRow[0] != []
    && Incomparable(m.methodRow[0], m.block[0])
    && Incomparable(m.methodRow[0], m.tableClose)
    && Incomparable(m.block[0], m.tableClose)
  }

  lemma IncomparableNoPrefix(a: string, b: string, s: string)
    requires Incomparable(a, b)
    requires b <= s
    ensures !(a <= s)
  {
  }

  /** The markup of the source is unambiguous. */
  lemma SourceUnambiguous()
    ensures Unambiguous(Source)
  {
    assert RowOpen[|RowStart| + 1] == 't' && RowOpen[|RowStart| + 2] == 'd';
    assert BlockOpen[|RowStart| + 2] == 'h';
    assert RowOpen[0] == BlockOpen[0] == '\n' && Source.tableClose[0] == '<';
  }

  /** Reads one method row, and the text after it. */
  function ParseMethodRow(m: Markup, s: string): (r: Option<(MethodEntry, string)>)
    ensures r.Some? ==> |r.value.1| + TotalLength(m.methodRow) <= |s|
  {
    var holes :- Match(m.methodRow, s);
    var fields := holes.0;
    var min :- ParseValue(fields[1]);
    var mean :- ParseValue(fields[2]);
    var median :- ParseValue(fields[3]);
    var max :- ParseValue(fields[4]);
    var calls :- ParseValue(fields[5]);
    Some(((fields[0], CallStats(min, mean, median, max, calls)), holes.1))
  }

  /** Reads method rows for as long as the text starts like one. */
  function ParseMethodRows(m: Markup, s: string): (r: Option<(seq<MethodEntry>, string)>)
    ensures r.Some? ==> |r.value.1| <= |s|
    decreases |s|
  {
    if m.methodRow[0] != [] && m.methodRow[0] <= s then
      var row :- ParseMethodRow(m, s);
      var more :- ParseMethodRows(m, row.1);
      Some(([row.0] + more.0, more.1))
    else
      Some(([], s))
  }

  /** Reads one contract block: its header, then its method rows. */
  function ParseBlock(m: Markup, s: string): (r: Option<(ContractEntry, string)>)
    ensures r.Some? ==> |r.value.1| + TotalLength(m.block) <= |s|
  {
    var holes :- Match(m.block, s);
    var fields := holes.0;
    var gas :- ParseValue(fields[1]);
    var size :- ParseValue(fields[2]);
    var rows :- ParseMethodRows(m, holes.1);
    Some((ContractEntry(fields[0], DeploymentStats(gas, size), rows.0), rows.1))
  }

  /** Reads contract blocks for as long as the text starts like one. */
  function ParseBlocks(m: Markup, s: string): (r: Option<(Report, string)>)
    decreases |s|
  {
    if m.block[0] != [] && m.block[0] <= s then
      var block :- ParseBlock(m, s);
      var more :- ParseBlocks(m, block.1);
      Some(([block.0] + more.0, more.1))
    else
      Some(([], s))
  }

  /** Reads a whole table: the opening tag, the blocks, and nothing but the
      closing tag after them. */
  function ParseWith(m: Markup, s: string): Option<Report> {
    if m.tableOpen <= s then
      var blocks :- ParseBlocks(m, s[|m.tableOpen|..]);
      if blocks.1 == m.tableClose then Some(blocks.0) else None
    else
      None
  }

  /** Reads a table the source printed. */
  function Parse(s: string): Option<Report> {
    ParseWith(Source, s)
  }

  // ---------------------------------------------------------------------------
  // Round trip

  lemma MethodRowRoundTrip(m: Markup, e: MethodEntry, rest: string)
    requires Unambiguous(m)
    requires MarkupFree(e.0)
    ensures ParseMethodRow(m, MethodRow(m, e) + rest) == Some((e, rest))
  {
    var fields := MethodFields(e);
    MatchInterpolate(m.methodRow, fields, rest);
    ShowRoundTrip(e.1.min);
    ShowRoundTrip(e.1.mean);
    ShowRoundTrip(e.1.median);
    ShowRoundTrip(e.1.max);
    ShowRoundTrip(e.1.calls);
  }

  lemma {:induction false} MethodRowsRoundTrip(m: Markup, fs: seq<MethodEntry>, rest: string)
    requires Unambiguous(m)
    requires forall k :: 0 <= k < |fs| ==> MarkupFree(fs[k].0)
    requires !(m.methodRow[0] <= rest)
    ensures ParseMethodRows(m, Join(MethodRowOf(m), fs) + rest) == Some((fs, rest))
    decreases |fs|
  {
    if fs == [] {
      assert Join(MethodRowOf(m), fs) + rest == rest;
    } else {
      var row := MethodRow(m, fs[0]);
      var tail := Join(MethodRowOf(m), fs[1..]);
      JoinCons(MethodRowOf(m), fs[0], fs[1..]);
      assert [fs[0]] + fs[1..] == fs;
      Assoc(row, tail, rest);
      var s := row + (tail + rest);
      InterpolatePrefix(m.methodRow, MethodFields(fs[0]));
      assert s[..|m.methodRow[0]|] == row[..|m.methodRow[0]|];
      MethodRowRoundTrip(m, fs[0], tail + rest);
      MethodRowsRoundTrip(m, fs[1..], rest);
    }
  }

  /** The method rows of a contract with methods start like a method row. */
  lemma MethodRowsStart(m: Markup, fs: seq<MethodEntry>)
    requires fs != []
    ensures m.methodRow[0] <= Join(MethodRowOf(m), fs)
  {
    JoinCons(MethodRowOf(m), fs[0], fs[1..]);
    assert [fs[0]] + fs[1..] == fs;
    InterpolatePrefix(m.methodRow, MethodFields(fs[0]));
  }

  /** A non-empty sequence of blocks starts like a block. */
  lemma BlocksStart(m: Markup, r: Report)
    requires r != []
    ensures m.block[0] <= Join(BlockOf(m), r)
  {
    JoinCons(BlockOf(m), r[0], r[1..]);
    assert [r[0]] + r[1..] == r;
    InterpolatePrefix(m.block, ContractFields(r[0]));
  }

  lemma BlockRoundTrip(m: Markup, c: ContractEntry, rest: string)
    requires Unambiguous(m)
    requires EntryMarkupFree(c)
    requires !(m.methodRow[0] <= rest)
    ensures ParseBlock(m, Block(m, c) + rest) == Some((c, rest))
  {
    var rows := Join(MethodRowOf(m), c.functions);
    var after := rows + rest;
    assert Block(m, c) + rest == Header(m, c) + after by {
      Assoc(Header(m, c), rows, rest);
    }
    assert Match(m.block, Header(m, c) + after) == Some((ContractFields(c), after)) by {
      MatchInterpolate(m.block, ContractFields(c), after);
    }
    assert ParseMethodRows(m, after) == Some((c.functions, rest)) by {
      MethodRowsRoundTrip(m, c.functions, rest);
    }
    ShowRoundTrip(c.deployment.gas);
    ShowRoundTrip(c.deployment.size);
  }

  /** What follows a block in a table never starts like a method row: it is
      either the next block or the closing tag. */
  lemma BlocksNotRow(m: Markup, r: Report)
    requires Unambiguous(m)
    ensures !(m.methodRow[0] <= Join(BlockOf(m), r) + m.tableClose)
  {
    var blocks := Join(BlockOf(m), r);
    if r == [] {
      assert blocks + m.tableClose == m.tableClose;
      IncomparableNoPrefix(m.methodRow[0], m.tableClose, m.tableClose);
    } else {
      BlocksStart(m, r);
      assert (blocks + m.tableClose)[..|m.block[0]|] == m.block[0];
      IncomparableNoPrefix(m.methodRow[0], m.block[0], blocks + m.tableClose);
    }
  }

  lemma {:induction false} BlocksRoundTrip(m: Markup, r: Report)
    requires Unambiguous(m)
    requires ReportMarkupFree(r)
    ensures ParseBlocks(m, Join(BlockOf(m), r) + m.tableClose) == Some((r, m.tableClose))
    decreases |r|
  {
    var s := Join(BlockOf(m), r) + m.tableClose;
    if r == [] {
      assert s == m.tableClose;
    } else {
      var tail := Join(BlockOf(m), r[1..]);
      var rest := tail + m.tableClose;
      BlocksSplit(m, r);
      BlocksStart(m, r);
      PrefixAppend(m.block[0], Join(BlockOf(m), r), m.tableClose);
      assert ParseBlock(m, s) == Some((r[0], rest)) by {
        BlocksNotRow(m, r[1..]);
        BlockRoundTrip(m, r[0], rest);
      }
      assert ParseBlocks(m, rest) == Some((r[1..], m.tableClose)) by {
        assert ReportMarkupFree(r[1..]);
        BlocksRoundTrip(m, r[1..]);
      }
      ParseBlocksStep(m, s, r[0], rest);
      assert [r[0]] + r[1..] == r;
    }
  }

  /** A table body with blocks is its first block followed by the rest. */
  lemma BlocksSplit(m: Markup, r: Report)
    requires r != []
    ensures Join(BlockOf(m), r) + m.tableClose
         == Block(m, r[0]) + (Join(BlockOf(m), r[1..]) + m.tableClose)
  {
    JoinFirst(BlockOf(m), r);
    Assoc(Block(m, r[0]), Join(BlockOf(m), r[1..]), m.tableClose);
  }

  lemma ParseBlocksStep(m: Markup, s: string, c: ContractEntry, rest: string)
    requires m.block[0] != [] && m.block[0] <= s
    requires ParseBlock(m, s) == Some((c, rest))
    ensures ParseBlocks(m, s) == match ParseBlocks(m, rest)
      case None => None
      case Some(more) => Some(([c] + more.0, more.1))
  {
  }

  /** Parsing a rendered table recovers the report, for any unambiguous markup
      and any report whose names are free of `<`. */
  lemma RoundTripWith(m: Markup, r: Report)
    requires Unambiguous(m)
    requires ReportMarkupFree(r)
    ensures ParseWith(m, RenderWith(m, r)) == Some(r)
  {
    var body := Join(BlockOf(m), r);
    Assoc(m.tableOpen, body, m.tableClose);
    assert RenderWith(m, r)[|m.tableOpen|..] == body + m.tableClose;
    BlocksRoundTrip(m, r);
  }

  /** The table the source prints holds the whole report: parsing it back
      yields the report, provided no contract or method name contains `<`. */
  lemma ParseRender(r: Report)
    requires ReportMarkupFree(r)
    ensures Parse(Render(r)) == Some(r)
  {
    SourceUnambiguous();
    RoundTripWith(Source, r);
  }

  /** Two reports whose names are free of `<` print the same table only if
      they are the same report. */
  lemma RenderInjective(a: Report, b: Report)
    requires ReportMarkupFree(a) && ReportMarkupFree(b)
    ensures Render(a) == Render(b) <==> a == b
  {
    if Render(a) == Render(b) {
      ParseRender(a);
      ParseRender(b);
    }
  }

  // ---------------------------------------------------------------------------
  // No escaping

  /** A method name that swallows a whole row: `a`, the rest of `a`'s row,
      the start of the next row, then `b`. */
  function SplicedName(m: Markup, a: string, b: string, st: CallStats): string {
    a + Interpolate(m.methodRow[1..], MethodFields((a, st))[1..]) + m.methodRow[0] + b
  }

  /** The text after a method row's name depends only on the statistics. */
  lemma MethodRowSplit(m: Markup, x: string, st: CallStats)
    ensures MethodRow(m, (x, st))
         == m.methodRow[0] + (x + Interpolate(m.methodRow[1..], MethodFields(("", st))[1..]))
  {
    assert MethodFields((x, st))[1..] == MethodFields(("", st))[1..];
  }

  /** Because names are embedded without escaping, a contract with methods `a`
      and `b` prints the same table as one with the single method
      `SplicedName(m, a, b, st)`: the table alone cannot tell them apart. */
  lemma UnescapedNamesCollide(m: Markup, c: ContractEntry, a: string, b: string, st: CallStats)
    ensures var two := c.(functions := [(a, st), (b, st)]);
      var one := c.(functions := [(SplicedName(m, a, b, st), st)]);
      && two != one
      && RenderWith(m, [two]) == RenderWith(m, [one])
  {
    var two := c.(functions := [(a, st), (b, st)]);
    var n := SplicedName(m, a, b, st);
    var one := c.(functions := [(n, st)]);
    var t0 := m.methodRow[0];
    var rest := Interpolate(m.methodRow[1..], MethodFields(("", st))[1..]);
    assert n == a + rest + t0 + b by {
      assert MethodFields((a, st))[1..] == MethodFields(("", st))[1..];
    }
    MethodRowSplit(m, a, st);
    MethodRowSplit(m, b, st);
    MethodRowSplit(m, n, st);
    var f := MethodRowOf(m);
    assert Join(f, two.functions) == MethodRow(m, (a, st)) + MethodRow(m, (b, st)) by {
      assert two.functions[..1] == [(a, st)];
      assert Join(f, [(a, st)]) == Join(f, []) + MethodRow(m, (a, st));
    }
    assert Join(f, one.functions) == MethodRow(m, (n, st)) by {
      assert Join(f, [(n, st)]) == Join(f, []) + MethodRow(m, (n, st));
    }
    assert MethodRow(m, (n, st)) == MethodRow(m, (a, st)) + MethodRow(m, (b, st));
    assert Block(m, two) == Block(m, one);
    assert Join(BlockOf(m), [two]) == Join(BlockOf(m), []) + Block(m, two);
    assert Join(BlockOf(m), [one]) == Join(BlockOf(m), []) + Block(m, one);
  }
}
