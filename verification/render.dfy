/** The report renderer: one outer `<table>`, and inside it, for every contract
    in input order, a block made of the contract's header template followed by
    one method-row template per method.

    The fixed text of the templates is gathered in a `Markup` record. `Source`
    holds it byte for byte as the source's template literals write it,
    newlines and indentation included, and `Render` renders with it. The
    structural facts below hold for any markup, so they are stated for
    `RenderWith` and apply to `Render` as the instance `m := Source`. */
module Renderer {
  import opened Values
  import opened GasReport
  import opened Joins
  import opened Templates

  /** Fixed strings of the per-contract template, around its three holes:
      contract name, deployment gas, deployment size. */
  type BlockStrings = s: seq<string> | |s| == 4 witness ["", "", "", ""]

  /** Fixed strings of the per-method template, around its six holes: method
      name, min, mean, median, max, calls. */
  type RowStrings = s: seq<string> | |s| == 7 witness ["", "", "", "", "", "", ""]

  datatype Markup = Markup(tableOpen: string, block: BlockStrings, methodRow: RowStrings, tableClose: string)

  /** A new line and the indentation of a cell. */
  const CellIndent: string := "\n      "

  /** How every row of the table starts: a new line, `<tr>`, and the
      indentation of its first cell. */
  const RowStart: string := "\n    <tr>" + CellIndent

  /** How every row of the table ends, after its last cell. */
  const RowEnd: string := "\n    </tr>"

  /** The per-contract template up to its first hole: the row of contract
      column labels, then the deployment row up to the bold contract name. */
  const BlockOpen: string :=
    RowStart + "<th colspan=\"4\">Contract</th>" + CellIndent + "<th>gas</th>" + CellIndent + "<th>size</th>" + RowEnd
    + RowStart + "<td colspan=\"4\"><b>"

  /** Between the contract name and the deployment gas. */
  const NameClose: string := "</b></td>" + CellIndent + "<td>"

  /** Between two data cells of a row. */
  const CellBreak: string := "</td>" + CellIndent + "<td>"

  /** The per-contract template after its last hole: the end of the deployment
      row, then the row of method column labels. */
  const BlockClose: string :=
    "</td>" + RowEnd
    + RowStart + "<th>Method</th>" + CellIndent + "<th>min</th>" + CellIndent + "<th>mean</th>"
    + CellIndent + "<th>median</th>" + CellIndent + "<th>max</th>" + CellIndent + "<th>calls</th>" + RowEnd

  /** The per-method template up to the method name. */
  const RowOpen: string := RowStart + "<td>"

  /** The per-method template after the call count. */
  const RowClose: string := "</td>" + RowEnd

  /** The markup of the source's template literals. */
  const Source: Markup := Markup(
    "<table>",
    [BlockOpen, NameClose, CellBreak, BlockClose],
    [RowOpen, CellBreak, CellBreak, CellBreak, CellBreak, CellBreak, RowClose],
    "</table>"
  )

  /** What fills the holes of a contract's header: name, gas, size. */
  function ContractFields(c: ContractEntry): (fs: seq<string>)
    ensures |fs| == 3
  {
    [c.contract, Show(c.deployment.gas), Show(c.deployment.size)]
  }

  /** What fills the holes of a method row: name, min, mean, median, max, calls. */
  function MethodFields(e: MethodEntry): (fs: seq<string>)
    ensures |fs| == 6
  {
    [e.0, Show(e.1.min), Show(e.1.mean), Show(e.1.median), Show(e.1.max), Show(e.1.calls)]
  }

  /** The three rows every block starts with, whatever its methods. */
  function Header(m: Markup, c: ContractEntry): string {
    Interpolate(m.block, ContractFields(c))
  }

  /** One method's row. */
  function MethodRow(m: Markup, e: MethodEntry): string {
    Interpolate(m.methodRow, MethodFields(e))
  }

  function MethodRowOf(m: Markup): MethodEntry -> string {
    e => MethodRow(m, e)
  }

  /** Everything one contract contributes to the table: its header rows, then
      one row per method, appended in enumeration order. */
  function Block(m: Markup, c: ContractEntry): string {
    Header(m, c) + Join(MethodRowOf(m), c.functions)
  }

  function BlockOf(m: Markup): ContractEntry -> string {
    c => Block(m, c)
  }

  /** The blocks of all contracts, appended in input order, inside one table. */
  function RenderWith(m: Markup, r: Report): (out: string)
    ensures |out| >= |m.tableOpen| + |m.tableClose|
    ensures out[..|m.tableOpen|] == m.tableOpen
    ensures out[|out| - |m.tableClose|..] == m.tableClose
    ensures r == [] ==> out == m.tableOpen + m.tableClose
  {
    m.tableOpen + Join(BlockOf(m), r) + m.tableClose
  }

  /** The table the source prints, for any well-formed report. */
  function Render(r: Report): (out: string)
    ensures |out| >= 15
    ensures out[..7] == "<table>"
    ensures out[|out| - 8..] == "</table>"
    ensures r == [] ==> out == "<table></table>"
  {
    RenderWith(Source, r)
  }

  // ---------------------------------------------------------------------------
  // Concatenation and order

  /** The table for `a + b` holds the blocks of `a` followed by the blocks of
      `b`, inside the one table. */
  lemma RenderAppend(m: Markup, a: Report, b: Report)
    ensures RenderWith(m, a + b) == m.tableOpen + (Join(BlockOf(m), a) + Join(BlockOf(m), b)) + m.tableClose
  {
    JoinAppend(BlockOf(m), a, b);
  }

  /** The block of the `k`-th contract sits in the table right after the
      opening tag and the blocks of the contracts before it. */
  lemma BlockAt(m: Markup, r: Report, k: nat)
    requires k < |r|
    ensures var start := |m.tableOpen| + |Join(BlockOf(m), r[..k])|;
      && start + |Block(m, r[k])| <= |RenderWith(m, r)|
      && RenderWith(m, r)[start..start + |Block(m, r[k])|] == Block(m, r[k])
  {
    JoinAt(BlockOf(m), r, k);
    var body := Join(BlockOf(m), r);
    assert RenderWith(m, r)[|m.tableOpen|..|m.tableOpen| + |body|] == body;
  }

  /** The row of the `k`-th method sits in its contract's block right after
      the header rows and the rows of the methods before it. */
  lemma MethodRowAt(m: Markup, c: ContractEntry, k: nat)
    requires k < |c.functions|
    ensures var start := |Header(m, c)| + |Join(MethodRowOf(m), c.functions[..k])|;
      var row := MethodRow(m, c.functions[k]);
      && start + |row| <= |Block(m, c)|
      && Block(m, c)[start..start + |row|] == row
  {
    JoinAt(MethodRowOf(m), c.functions, k);
    var rows := Join(MethodRowOf(m), c.functions);
    assert Block(m, c)[|Header(m, c)|..] == rows;
  }

  // ---------------------------------------------------------------------------
  // Field placement

  /** A block starts with the header's first fixed string, and carries the
      contract name, the deployment gas and the deployment size verbatim, each
      at the offset `HoleStart` gives its hole (`HoleOrder` orders the holes). */
  lemma BlockFields(m: Markup, c: ContractEntry)
    ensures var b := Block(m, c);
      var fields := ContractFields(c);
      && b[..|m.block[0]|] == m.block[0]
      && fields[0] == c.contract
      && forall k :: 0 <= k < 3 ==>
        var at := HoleStart(m.block, fields, k);
        && at + |fields[k]| <= |b|
        && b[at..at + |fields[k]|] == fields[k]
  {
    var fields := ContractFields(c);
    var h := Header(m, c);
    var b := Block(m, c);
    var rows := Join(MethodRowOf(m), c.functions);
    assert b == h + rows;
    assert b[..|m.block[0]|] == m.block[0] by {
      InterpolatePrefix(m.block, fields);
      SliceFront(h, rows, 0, |m.block[0]|);
    }
    forall k | 0 <= k < 3
      ensures var at := HoleStart(m.block, fields, k);
        && at + |fields[k]| <= |b|
        && b[at..at + |fields[k]|] == fields[k]
    {
      var at := HoleStart(m.block, fields, k);
      assert at + |fields[k]| <= |h| && h[at..at + |fields[k]|] == fields[k] by {
        HoleAt(m.block, fields, k);
      }
      SliceFront(h, rows, at, at + |fields[k]|);
    }
  }

  /** A method row starts with the row template's first fixed string, and
      carries the method name, min, mean, median, max and calls verbatim, each
      at the offset `HoleStart` gives its hole (`HoleOrder` orders the holes). */
  lemma MethodRowFields(m: Markup, e: MethodEntry)
    ensures var row := MethodRow(m, e);
      var fields := MethodFields(e);
      && row[..|m.methodRow[0]|] == m.methodRow[0]
      && fields[0] == e.0
      && forall k :: 0 <= k < 6 ==>
        var at := HoleStart(m.methodRow, fields, k);
        && at + |fields[k]| <= |row|
        && row[at..at + |fields[k]|] == fields[k]
  {
    var fields := MethodFields(e);
    InterpolatePrefix(m.methodRow, fields);
    forall k | 0 <= k < 6
      ensures var at := HoleStart(m.methodRow, fields, k);
        && at + |fields[k]| <= |MethodRow(m, e)|
        && MethodRow(m, e)[at..at + |fields[k]|] == fields[k]
    {
      HoleAt(m.methodRow, fields, k);
    }
  }

  // ---------------------------------------------------------------------------
  // Lengths

  /** Length of the text a contract's fields contribute: the name, the two
      deployment figures, and every field of every method row. */
  function FieldsLength(c: ContractEntry): nat {
    TotalLength(ContractFields(c)) + MethodFieldsLength(c.functions)
  }

  function MethodFieldsLength(fs: seq<MethodEntry>): nat {
    if fs == [] then 0 else MethodFieldsLength(fs[..|fs| - 1]) + TotalLength(MethodFields(fs[|fs| - 1]))
  }

  /** The length a block should have: the header's fixed text, the fixed text
      of one row per method, and the fields. */
  function BlockSize(m: Markup, c: ContractEntry): nat {
    TotalLength(m.block) + |c.functions| * TotalLength(m.methodRow) + FieldsLength(c)
  }

  function BlocksSize(m: Markup, r: Report): nat {
    if r == [] then 0 else BlocksSize(m, r[..|r| - 1]) + BlockSize(m, r[|r| - 1])
  }

  lemma MethodRowLength(m: Markup, e: MethodEntry)
    ensures |MethodRow(m, e)| == TotalLength(m.methodRow) + TotalLength(MethodFields(e))
  {
    InterpolateLength(m.methodRow, MethodFields(e));
  }

  lemma MulSucc(n: nat, t: nat)
    ensures (n + 1) * t == n * t + t
  {
  }

  lemma {:induction false} MethodRowsLength(m: Markup, fs: seq<MethodEntry>)
    ensures |Join(MethodRowOf(m), fs)| == |fs| * TotalLength(m.methodRow) + MethodFieldsLength(fs)
    decreases |fs|
  {
    if fs != [] {
      var init := fs[..|fs| - 1];
      var last := fs[|fs| - 1];
      MethodRowsLength(m, init);
      MethodRowLength(m, last);
      var t := TotalLength(m.methodRow);
      assert |Join(MethodRowOf(m), fs)| == |Join(MethodRowOf(m), init)| + |MethodRow(m, last)|;
      MulSucc(|init|, t);
    }
  }

  /** A block is as long as its fixed text plus its fields. */
  lemma BlockLength(m: Markup, c: ContractEntry)
    ensures |Block(m, c)| == BlockSize(m, c)
  {
    InterpolateLength(m.block, ContractFields(c));
    MethodRowsLength(m, c.functions);
  }

  /** The table is as long as its two tags plus all its blocks. */
  lemma {:induction false} RenderLength(m: Markup, r: Report)
    ensures |RenderWith(m, r)| == |m.tableOpen| + |m.tableClose| + BlocksSize(m, r)
    decreases |r|
  {
    if r != [] {
      RenderLength(m, r[..|r| - 1]);
      BlockLength(m, r[|r| - 1]);
    }
  }

  /** With the source's markup every contract costs 322 characters of fixed
      text besides its fields. */
  lemma SourceBlockLength()
    ensures TotalLength(Source.block) == 322
  {
    var b := Source.block;
    assert |BlockOpen| == 129 && |NameClose| == 20 && |CellBreak| == 16 && |BlockClose| == 157;
    assert TotalLength(b[3..]) == |BlockClose| by {
      assert b[3..][1..] == [];
    }
    assert TotalLength(b[2..]) == |CellBreak| + TotalLength(b[3..]) by {
      assert b[2..][1..] == b[3..];
    }
    assert TotalLength(b[1..]) == |NameClose| + TotalLength(b[2..]) by {
      assert b[1..][1..] == b[2..];
    }
  }

  /** With the source's markup every method row costs 115 characters of fixed
      text besides its fields. */
  lemma SourceRowLength()
    ensures TotalLength(Source.methodRow) == 115
  {
    var w := Source.methodRow;
    assert |RowOpen| == 20 && |CellBreak| == 16 && |RowClose| == 15;
    assert TotalLength(w[6..]) == |RowClose| by {
      assert w[6..][1..] == [];
    }
    forall k | 1 <= k <= 5
      ensures TotalLength(w[k..]) == |CellBreak| + TotalLength(w[k + 1..])
    {
      assert w[k..][1..] == w[k + 1..];
    }
  }
}
