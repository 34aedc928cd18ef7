/** The static helpers of class `ivdbase`: building and taking apart a
    record, rendering it as one CSV line, parsing a CSV line back into three
    raw fields, and the `.csv` file-name rule shared by Load and Save. */
module Codec {
  import opened PyStr

  /** One parcel: serial number, description and weight. The weight is kept
      as the text the caller supplied. */
  datatype Record = Record(sn: int, desc: string, wgt: string)

  /** The serial-number argument of `recGen` and `IndexOfSN`: the menu passes
      an integer, Load passes the first raw field of a line. */
  datatype SnArg = IntArg(n: int) | TextArg(text: string)

  /** `int(sn)`: an integer is kept, text is parsed and fails (ValueError)
      unless, with the white space around it gone, it is an optionally
      signed run of digits. */
  function ToInt(sn: SnArg): (r: Option<int>)
    ensures sn.IntArg? ==> r.Some?
    ensures sn.TextArg? ==> (r.Some? <==> IntText(IntTrim(sn.text)))
  {
    match sn
    case IntArg(n) => Some(n)
    case TextArg(t) => ParseInt(t)
  }

  /** `recGen(sn, desc, wgt)`: the serial number is coerced with `int()`,
      which fails (ValueError) on text that is not an optionally signed run
      of digits; description and weight are stored as given. */
  function RecGen(sn: SnArg, desc: string, wgt: string): (r: Option<Record>)
    ensures sn.IntArg? ==> r.Some?
    ensures sn.TextArg? ==> (r.Some? <==> IntText(IntTrim(sn.text)))
    ensures r.Some? ==> r.value.desc == desc && r.value.wgt == wgt
  {
    match ToInt(sn)
    case Some(n) => Some(Record(n, desc, wgt))
    case None => None
  }

  /** `recDec(obj)`: the fixed-order tuple `(sn, desc, wgt)`, from which
      `recGen` rebuilds the record. */
  function RecDec(r: Record): (t: (int, string, string))
    ensures RecGen(IntArg(t.0), t.1, t.2) == Some(r)
  {
    (r.sn, r.desc, r.wgt)
  }

  /** Building a record from discrete values and taking it apart again gives
      back the same values. */
  lemma RecDecOfRecGen(sn: int, desc: string, wgt: string)
    ensures RecGen(IntArg(sn), desc, wgt).Some?
    ensures RecDec(RecGen(IntArg(sn), desc, wgt).value) == (sn, desc, wgt)
  {
  }

  /** The serial number survives the trip through its decimal text. */
  lemma RecGenOfShownSerial(sn: int, desc: string, wgt: string)
    ensures RecGen(TextArg(ShowInt(sn)), desc, wgt) == Some(Record(sn, desc, wgt))
  {
    IntRoundTrip(sn);
  }

  /** `lineGenDisc(sn, desc, wgt)`: `"<sn>, <desc>, <wgt>\n"`, without any
      quoting. */
  function LineGenDisc(sn: int, desc: string, wgt: string): (line: string)
    ensures line != [] && line[|line| - 1] == '\n'
  {
    ShowInt(sn) + ", " + desc + ", " + wgt + "\n"
  }

  /** A rendered line holds its two separators plus every comma of the
      description and the weight: with no quoting, a comma in either turns
      into an extra field. */
  lemma LineGenDiscCommas(sn: int, desc: string, wgt: string)
    ensures multiset(LineGenDisc(sn, desc, wgt))[','] == 2 + multiset(desc)[','] + multiset(wgt)[',']
  {
    ShowIntChars(sn);
    assert ',' !in ShowInt(sn);
  }

  /** `lineGen(obj)`: the line for a record, which `lineDec` takes apart
      into the serial's text and the two texts as they read back. */
  function LineGen(r: Record): (line: string)
    ensures line != [] && line[|line| - 1] == '\n'
    ensures ',' !in r.desc && ',' !in r.wgt ==>
      LineDec(line) == Some((ShowInt(r.sn), " " + r.desc, ReadBackWeight(r.wgt)))
  {
    var (sn, desc, wgt) := RecDec(r);
    if ',' !in desc && ',' !in wgt then
      LineRoundTrip(sn, desc, wgt);
      LineGenDisc(sn, desc, wgt)
    else
      LineGenDisc(sn, desc, wgt)
  }

  /** `lineDec(line)`: the first three comma-separated raw fields of the
      right-stripped line, or nothing when it has fewer than three. */
  function LineDec(line: string): (r: Option<(string, string, string)>)
    ensures r.Some? ==> ',' !in r.value.0 && ',' !in r.value.1 && ',' !in r.value.2
  {
    var el := Split(RStrip(line), ',');
    JoinSplit(RStrip(line), ',');
    if |el| >= 3 then Some((el[0], el[1], el[2])) else None
  }

  /** A line is rejected exactly when its right-stripped text holds fewer
      than two commas. */
  lemma LineDecNone(line: string)
    ensures LineDec(line).None? <==> multiset(RStrip(line))[','] < 2
  {
    SplitCount(RStrip(line), ',');
  }

  /** An accepted line yields its first three fields as they stand (nothing
      trimmed, no comma inside), and whatever follows the third field starts
      with a comma: extra fields are ignored. */
  lemma LineDecFields(line: string)
    requires LineDec(line).Some?
    ensures var (a, b, c) := LineDec(line).value;
      var head := a + [','] + b + [','] + c;
      var t := RStrip(line);
      ',' !in a && ',' !in b && ',' !in c &&
      head <= t && (|head| == |t| || t[|head|] == ',')
  {
    var t := RStrip(line);
    var el := Split(t, ',');
    JoinSplit(t, ',');
    assert el[1..][1..] == el[2..];
    assert Join(el, ',') == el[0] + [','] + Join(el[1..], ',');
    assert Join(el[1..], ',') == el[1] + [','] + Join(el[2..], ',');
    var head := el[0] + [','] + el[1] + [','] + el[2];
    if |el| == 3 {
      assert t == head;
    } else {
      assert el[2..][1..] == el[3..];
      assert Join(el[2..], ',') == el[2] + [','] + Join(el[3..], ',');
      assert t == head + [','] + Join(el[3..], ',');
    }
  }

  /** What the third field of a rendered line reads back as: the weight with
      a leading space, right-stripped (so an empty or all-blank weight reads
      back empty). */
  function ReadBackWeight(wgt: string): (field: string)
    ensures wgt != [] && !IsSpace(wgt[|wgt| - 1]) ==> field == " " + wgt
    ensures ',' !in wgt ==> ',' !in field
  {
    RStripSpec(" " + wgt);
    RStrip(" " + wgt)
  }

  /** Parsing a rendered line gives back the serial number's text, the
      description with the leading space the separator left on it, and the
      weight as `ReadBackWeight` says, provided neither text holds a comma. */
  lemma LineRoundTrip(sn: int, desc: string, wgt: string)
    requires ',' !in desc && ',' !in wgt
    ensures LineDec(LineGenDisc(sn, desc, wgt)) == Some((ShowInt(sn), " " + desc, ReadBackWeight(wgt)))
  {
    var fields := [ShowInt(sn), " " + desc, ReadBackWeight(wgt)];
    StrippedLine(ShowInt(sn) + ", " + desc + ",", wgt);
    assert LineGenDisc(sn, desc, wgt) == (ShowInt(sn) + ", " + desc + ",") + (" " + wgt + "\n");
    JoinThree(ShowInt(sn), " " + desc, ReadBackWeight(wgt), ',');
    assert (ShowInt(sn) + ", " + desc + ",") + ReadBackWeight(wgt) == Join(fields, ',');
    SplitJoin(fields, ',');
  }

  /** Right-stripping a rendered line removes the newline and the trailing
      white space of the weight, and stops at the last comma at the latest. */
  lemma StrippedLine(head: string, wgt: string)
    requires head != [] && head[|head| - 1] == ','
    ensures RStrip(head + (" " + wgt + "\n")) == head + ReadBackWeight(wgt)
  {
    var tail := " " + wgt + "\n";
    RStripAfter(head, tail);
    assert tail[..|tail| - 1] == " " + wgt;
  }

  lemma JoinThree(a: string, b: string, c: string, sep: char)
    ensures Join([a, b, c], sep) == a + [sep] + b + [sep] + c
  {
    assert [a, b, c][1..] == [b, c];
    assert [b, c][1..] == [c];
    assert Join([b, c], sep) == b + [sep] + c;
  }

  /** The record a line turns into when Load reads it: `lineDec`, then
      `recGen` on the three raw fields; nothing when either step fails. */
  function DecodeLine(line: string): (r: Option<Record>)
    ensures r.None? <==> LineDec(line).None? || ParseInt(LineDec(line).value.0).None?
    ensures r.Some? ==> ',' !in r.value.desc && ',' !in r.value.wgt
  {
    match LineDec(line)
    case None => None
    case Some((sn, desc, wgt)) => RecGen(TextArg(sn), desc, wgt)
  }

  /** What a record looks like after it has been written by Save and read
      back by Load. */
  function Reloaded(r: Record): Record {
    Record(r.sn, " " + r.desc, ReadBackWeight(r.wgt))
  }

  /** Reading back the line of a comma-free record gives the record with its
      serial number intact, one space in front of its description, and its
      weight as `ReadBackWeight` says. */
  lemma RecordRoundTrip(r: Record)
    requires ',' !in r.desc && ',' !in r.wgt
    ensures DecodeLine(LineGen(r)) == Some(Reloaded(r))
  {
    LineRoundTrip(r.sn, r.desc, r.wgt);
    RecGenOfShownSerial(r.sn, " " + r.desc, ReadBackWeight(r.wgt));
  }

  /** Each save/load cycle adds one more leading space to the description:
      the round trip is not the identity. */
  lemma ReloadedTwice(r: Record)
    ensures Reloaded(Reloaded(r)).desc == "  " + r.desc
    ensures Reloaded(r) != r
  {
    assert Reloaded(r).desc == " " + r.desc;
    assert |Reloaded(r).desc| == |r.desc| + 1;
  }

  /** The file name Load and Save use: `filename`, with `.csv` appended when
      it does not already end with it. */
  function CsvPath(filename: string): (path: string)
    ensures EndsWith(path, ".csv")
    ensures filename <= path && |path| <= |filename| + 4
    ensures EndsWith(filename, ".csv") ==> path == filename
    ensures !EndsWith(filename, ".csv") ==> path == filename + ".csv"
  {
    if EndsWith(filename, ".csv") then filename else filename + ".csv"
  }

  /** Applying the rule twice is applying it once. */
  lemma CsvPathIdempotent(filename: string)
    ensures CsvPath(CsvPath(filename)) == CsvPath(filename)
  {
  }
}
