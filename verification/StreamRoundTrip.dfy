/** Writing with one stream and reading with the other. */
module StreamRoundTrip {
  import opened StreamFormat
  import opened StreamItems
  import opened StreamWriter
  import opened StreamReader

  /** Values that fit are read back as written, and the reader is then at the end of the data. */
  method WriteThenRead(items: seq<Item>) returns (back: Result<seq<Item>>, eof: bool)
    requires AllTyped(items)
    ensures AllFit(items) <==> back.Ok? && back.value == items
    ensures AllFit(items) ==> eof
  {
    var writer := new Writer();
    writer.WriteAll(items);
    assert writer.buf == EncodeAll(items);
    var reader := new Reader(writer.buf);
    back := reader.ReadAll(ShapesOf(items));
    eof := reader.Eof();
    RoundTripIff(items);
  }
}
