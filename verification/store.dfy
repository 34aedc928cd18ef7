/** Class `ivdbase`: the in-memory inventory, an ordered list of records
    (`dblist`) with a separately kept count (`dblen`), and its operations.
    Files are a map from path to the lines the file holds, each line with its
    newline; a path missing from the map is a file that does not exist. */
module Store {
  import opened PyStr
  import opened Codec

  /** The Python exceptions the operations can let escape. */
  datatype PyError = IndexError | ValueError

  /** How a Python call ends: it returns a value or raises. */
  datatype Outcome<T> = Return(value: T) | Raise(error: PyError)

  type Files = map<string, seq<string>>

  /** Python list indexing: the position that index `i` denotes in a list of
      length `n` (negative indices count from the end), if there is one. */
  function PyIndex(n: nat, i: int): (k: Option<nat>)
    ensures k.Some? <==> -(n as int) <= i < n
    ensures k.Some? ==> k.value < n && (k.value == i || k.value == n + i)
  {
    if 0 <= i < n then Some(i) else if -(n as int) <= i < 0 then Some(n + i) else None
  }

  class Ivdbase {
    var dblist: seq<Record>
    var dblen: nat

    /** The invariant every operation keeps: the count never exceeds the
        list. */
    ghost predicate Valid()
      reads this
    {
      dblen <= |dblist|
    }

    /** The count is the length of the list. Every operation keeps this
        except a Load that raises after it has appended records. */
    ghost predicate Consistent()
      reads this
    {
      dblen == |dblist|
    }

    constructor ()
      ensures Valid() && Consistent()
      ensures dblist == [] && dblen == 0
    {
      dblist := [];
      dblen := 0;
    }

    method Reset()
      modifies this
      ensures Valid() && Consistent()
      ensures dblist == [] && dblen == 0
    {
      dblist := [];
      dblen := 0;
    }

    /** The number of records, as the count says. */
    function Size(): (n: nat)
      reads this
      ensures Valid() ==> n <= |dblist|
      ensures Consistent() ==> n == |dblist|
    {
      dblen
    }

    /** The position of the first of the first `Size()` records whose serial
        number is `int(sn)`, or -1. The conversion happens inside the scan,
        so an empty store answers -1 even for text that is not a number. */
    method IndexOfSN(sn: SnArg) returns (r: Outcome<int>)
      requires Valid()
      ensures r.Raise? <==> dblen > 0 && ToInt(sn).None?
      ensures r.Raise? ==> r.error == ValueError
      ensures r.Return? ==> -1 <= r.value < dblen
      ensures r.Return? && r.value >= 0 ==>
        ToInt(sn) == Some(dblist[r.value].sn) &&
        forall j :: 0 <= j < r.value ==> ToInt(sn) != Some(dblist[j].sn)
      ensures r == Return(-1) ==> forall j :: 0 <= j < dblen ==> ToInt(sn) != Some(dblist[j].sn)
    {
      for i := 0 to dblen
        invariant forall j :: 0 <= j < i ==> ToInt(sn) != Some(dblist[j].sn)
        invariant i > 0 ==> ToInt(sn).Some?
      {
        var n := ToInt(sn);
        if n.None? {
          return Raise(ValueError);
        }
        if dblist[i].sn == n.value {
          return Return(i);
        }
      }
      return Return(-1);
    }

    /** Empties the store, then reads the file `CsvPath(filename)` line by
        line. A missing file answers -1 and leaves the store empty. Otherwise
        the records are those of the longest run of leading lines that
        decode; when that run is the whole file the count is set and
        returned, else ValueError is raised with the count left at 0. */
    method Load(filename: string, files: Files) returns (r: Outcome<int>)
      modifies this
      ensures Valid()
      ensures CsvPath(filename) !in files ==> r == Return(-1) && dblist == [] && dblen == 0
      ensures CsvPath(filename) in files ==> |dblist| <= |files[CsvPath(filename)]|
      ensures CsvPath(filename) in files ==> forall i :: 0 <= i < |dblist| ==>
        DecodeLine(files[CsvPath(filename)][i]) == Some(dblist[i])
      ensures CsvPath(filename) in files && |dblist| == |files[CsvPath(filename)]| ==>
        r == Return(|dblist|) && Consistent()
      ensures CsvPath(filename) in files && |dblist| < |files[CsvPath(filename)]| ==>
        r == Raise(ValueError) && dblen == 0 && DecodeLine(files[CsvPath(filename)][|dblist|]).None?
    {
      dblist := [];
      dblen := 0;
      var path := CsvPath(filename);
      if path !in files {
        return Return(-1);
      }
      var lines := files[path];
      for i := 0 to |lines|
        invariant dblen == 0 && |dblist| == i
        invariant forall j :: 0 <= j < i ==> DecodeLine(lines[j]) == Some(dblist[j])
      {
        var elements := LineDec(lines[i]);
        if elements.None? {
          return Raise(ValueError);
        }
        var (sn, desc, wgt) := elements.value;
        var rec := RecGen(TextArg(sn), desc, wgt);
        if rec.None? {
          return Raise(ValueError);
        }
        dblist := dblist + [rec.value];
      }
      dblen := |dblist|;
      return Return(dblen);
    }

    /** Writes one line per record of the list, in order, to the file
        `CsvPath(filename)` (replacing it), leaves every other file alone
        and answers the number of lines written. */
    method Save(filename: string, files: Files) returns (n: int, files': Files)
      ensures n == |dblist|
      ensures CsvPath(filename) in files'
      ensures files' - {CsvPath(filename)} == files - {CsvPath(filename)}
      ensures var lines := files'[CsvPath(filename)];
        |lines| == |dblist| && forall i :: 0 <= i < |lines| ==> lines[i] == LineGen(dblist[i])
    {
      var lines: seq<string> := [];
      var idx := 0;
      while idx < |dblist|
        invariant idx <= |dblist| && |lines| == idx
        invariant forall k :: 0 <= k < idx ==> lines[k] == LineGen(dblist[k])
      {
        lines := lines + [LineGen(dblist[idx])];
        idx := idx + 1;
      }
      files' := files[CsvPath(filename) := lines];
      n := idx;
    }

    /** The record at `idx` when `idx < Size()`, with Python's wrap-around
        for a negative `idx` (which raises IndexError once it reaches past
        the front of the list); nothing when `idx >= Size()`. */
    method Read(idx: int) returns (r: Outcome<Option<Record>>)
      requires Valid()
      ensures idx >= dblen ==> r == Return(None)
      ensures 0 <= idx < dblen ==> r == Return(Some(dblist[idx]))
      ensures -|dblist| <= idx < 0 ==> r == Return(Some(dblist[|dblist| + idx]))
      ensures idx < -|dblist| ==> r == Raise(IndexError)
    {
      if idx < Size() {
        var k := PyIndex(|dblist|, idx);
        if k.None? {
          return Raise(IndexError);
        }
        return Return(Some(dblist[k.value]));
      }
      return Return(None);
    }

    /** Puts `dobj` at the end; always answers 0. */
    method Append(dobj: Record) returns (rc: int)
      requires Valid()
      modifies this
      ensures rc == 0
      ensures dblist == old(dblist) + [dobj] && dblen == old(dblen) + 1
      ensures Valid() && (old(Consistent()) ==> Consistent())
    {
      dblist := dblist + [dobj];
      dblen := dblen + 1;
      return 0;
    }

    /** Overwrites the one position that `index` denotes in the list (Python
        indexing) and answers 0; answers -1 and changes nothing when `index`
        is out of range. The count is never touched. */
    method Replace(index: int, dobj: Record) returns (rc: int)
      requires Valid()
      modifies this
      ensures dblen == old(dblen) && |dblist| == |old(dblist)|
      ensures Valid() && (old(Consistent()) ==> Consistent())
      ensures rc == 0 <==> -|old(dblist)| <= index < |old(dblist)|
      ensures rc != 0 ==> rc == -1 && dblist == old(dblist)
      ensures rc == 0 ==> forall j :: 0 <= j < |dblist| ==>
        dblist[j] == if PyIndex(|dblist|, index) == Some(j) then dobj else old(dblist)[j]
    {
      var k := PyIndex(|dblist|, index);
      if k.None? {
        return -1;
      }
      dblist := dblist[k.value := dobj];
      return 0;
    }
  }

  /** A record whose description and weight survive being written as one
      CSV line: no comma (the separator) and no line break (which the file
      would split into two lines). */
  predicate Storable(r: Record) {
    ',' !in r.desc && ',' !in r.wgt &&
    '\n' !in r.desc && '\n' !in r.wgt && '\r' !in r.desc && '\r' !in r.wgt
  }

  /** Save, Reset, Load on one store: the same number of records comes back,
      the store is consistent, and each record is as `Reloaded` says. */
  method SaveResetLoad(db: Ivdbase, filename: string, files: Files) returns (saved: int, loaded: Outcome<int>)
    requires forall j :: 0 <= j < |db.dblist| ==> Storable(db.dblist[j])
    modifies db
    ensures saved == |old(db.dblist)| && loaded == Return(saved)
    ensures db.Consistent() && |db.dblist| == saved
    ensures forall j :: 0 <= j < saved ==> db.dblist[j] == Reloaded(old(db.dblist)[j])
  {
    var files';
    saved, files' := db.Save(filename, files);
    var lines := files'[CsvPath(filename)];
    forall j | 0 <= j < |lines|
      ensures DecodeLine(lines[j]) == Some(Reloaded(db.dblist[j]))
    {
      RecordRoundTrip(db.dblist[j]);
    }
    db.Reset();
    loaded := db.Load(filename, files');
  }
}
