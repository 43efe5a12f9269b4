/** The converter and the decoder read the same object header: for every
    category they resolve the same table vector and decode the same table. */
module ToolAgreement {
  import opened Bytes
  import Msob
  import PvmsEncoder
  import MsobDecoder

  /** The table pointer the decoder reports for a category. */
  function ReportedTable(h: MsobDecoder.Header, c: PvmsEncoder.Category): nat {
    match c
    case Score => h.scoTable
    case Track => h.trkTable
    case Instrument => h.insTable
    case Wave => h.wavTable
  }

  /** The converter's table for a category is the one the decoder reports,
      under the same partial-tables flag, so both tools walk the same slots. */
  lemma TablesAgree(buf: seq<byte>, base: nat, c: PvmsEncoder.Category)
    requires MsobDecoder.ObjectReadable(buf)
    ensures var h := MsobDecoder.ObjectReport(buf, base).header;
      PvmsEncoder.TablePointer(buf, c) == ReportedTable(h, c) &&
      (h.partTables <==> buf[37] != 0) &&
      Msob.TableReadable(buf, ReportedTable(h, c), h.partTables) &&
      Msob.Table(buf, PvmsEncoder.TablePointer(buf, c), buf[37] != 0) == Msob.Table(buf, ReportedTable(h, c), h.partTables)
  {
  }
}
