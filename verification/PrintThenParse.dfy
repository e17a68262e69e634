/** The printer and the tokener as objects, one after the other. */
module PrintThenParse {
  import opened Bytes
  import opened JsonValue
  import opened Printer
  import opened Grammar
  import opened TokenerMachine
  import PrintBuf
  import PrinterMethods
  import Reparse
  import RoundTrip
  import Tokener

  /**
   A value that is printed to a buffer and parsed from it by a new tokener is back, exactly when
   `RoundTripsExactlyWhen` says.
   */
  method PrintAndParse(v: Json, f: Flags, maxDepth: nat, isDoubleText: bytes -> bool) returns (w: Json, err: Error)
    requires maxDepth > 0
    ensures err == Success && w == v <==>
      Printable(v, isDoubleText) && Height(v) < maxDepth && InfinityReadable(RoundTrip.DocOf(v, 0, f), true)
  {
    var pb := new PrintBuf.PrintBuf();
    var text := PrinterMethods.ToJsonString(pb, v, f);
    var tok := new Tokener.Tokener(maxDepth, isDoubleText);
    Reparse.RoundTripsExactlyWhen(tok.Cfg(), NEW, v, f);
    w := tok.ParseEx(text + [NUL]);
    err := tok.err;
  }
}
