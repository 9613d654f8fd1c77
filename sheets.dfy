/** Workbook sheets as the fetchers store them, and the sheet-name rule they share. */
module Sheets {
  import Text
  import Sorting
  import Position

  /** One named sheet of a workbook. */
  datatype Sheet = Sheet(name: string, table: Position.RawTable)

  /** Workbooks written so far, by file name; a later write replaces the file. */
  type Sink = map<string, seq<Sheet>>

  /** Excel's limit on sheet-name length. */
  const MaxSheetName: nat := 31

  /** `name[:31].replace("/", "-").replace("*", "")`. */
  function CleanSheetName(name: string): (r: string)
    ensures |r| <= MaxSheetName
    ensures '/' !in r && '*' !in r
  {
    var t := Text.ReplaceChar(Sorting.Take(name, MaxSheetName), '/', '-');
    assert '/' !in t by {
      forall i | 0 <= i < |t| ensures t[i] != '/' { }
    }
    Text.RemoveChar(t, '*')
  }

  /** A name that already fits is kept as it is. */
  lemma CleanSheetNameKeepsClean(name: string)
    requires |name| <= MaxSheetName && '/' !in name && '*' !in name
    ensures CleanSheetName(name) == name
  {
    var t := Text.ReplaceChar(Sorting.Take(name, MaxSheetName), '/', '-');
    assert t == name;
  }

  /** Cleaning twice is cleaning once. */
  lemma CleanSheetNameIdempotent(name: string)
    ensures CleanSheetName(CleanSheetName(name)) == CleanSheetName(name)
  {
    CleanSheetNameKeepsClean(CleanSheetName(name));
  }

  /** The sheets of `data` under their cleaned names, as the writers save them. */
  function CleanSheets(data: seq<Sheet>): (r: seq<Sheet>)
    ensures |r| == |data|
    ensures forall i :: 0 <= i < |data| ==> r[i] == Sheet(CleanSheetName(data[i].name), data[i].table)
  {
    if data == [] then [] else [Sheet(CleanSheetName(data[0].name), data[0].table)] + CleanSheets(data[1..])
  }
}
