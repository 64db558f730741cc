/** The script itself: an accumulator that starts as the opening tag, gains one
    block per contract (each block built in its own accumulator, one method row
    at a time), and ends with the closing tag. */
module Script {
  import opened GasReport
  import opened Joins
  import opened Templates
  import opened Renderer

  /** Builds the table the way the script does, and yields exactly `Render`. */
  method RenderTable(gas: Report) returns (table: string)
    ensures table == Render(gas)
  {
    table := Source.tableOpen;
    var i := 0;
    while i < |gas|
      invariant 0 <= i <= |gas|
      invariant table == Source.tableOpen + Join(BlockOf(Source), gas[..i])
    {
      var item := gas[i];
      var row := Header(Source, item);
      var j := 0;
      while j < |item.functions|
        invariant 0 <= j <= |item.functions|
        invariant row == Header(Source, item) + Join(MethodRowOf(Source), item.functions[..j])
      {
        ghost var done := Join(MethodRowOf(Source), item.functions[..j]);
        row := row + MethodRow(Source, item.functions[j]);
        JoinSnoc(MethodRowOf(Source), item.functions, j);
        Assoc(Header(Source, item), done, MethodRow(Source, item.functions[j]));
        j := j + 1;
      }
      assert item.functions[..j] == item.functions;
      ghost var before := Join(BlockOf(Source), gas[..i]);
      table := table + row;
      JoinSnoc(BlockOf(Source), gas, i);
      Assoc(Source.tableOpen, before, Block(Source, item));
      i := i + 1;
    }
    assert gas[..i] == gas;
    table := table + Source.tableClose;
  }
}
