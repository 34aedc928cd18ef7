# Inventory record store (`ivdbase`), modelled in Dafny

`ivdbase_class.py` is the record store of a small parcel-inventory tool. A
record holds a serial number, a description and a weight. The store keeps
records in an ordered list (`dblist`) with a separately kept count
(`dblen`). It can append, replace, read by position and find by serial
number. It loads and saves a CSV file with one line `"<sn>, <desc>, <wgt>\n"`
per record. This project models that file in four Dafny modules:

- `PyStr` (`pystr.dfy`) gives meaning to the Python built-ins the store
  relies on: `str.isspace`, `rstrip`, `split(',')` and its
  inverse `join`, `endswith`, `"%s" % n` for an integer, and `int(s)` for a
  string.
- `Codec` (`codec.dfy`) holds the static helpers `recGen`, `recDec`,
  `lineGenDisc`, `lineGen` and `lineDec`, and the `.csv` file-name rule.
  It also proves the round trip between rendering and parsing a line.
- `Store` (`store.dfy`) holds the class `Ivdbase` with the fields `dblist:
  seq<Record>` and `dblen: nat` and all of the class's methods.
  - A call that can raise returns `Outcome<T>`, which is `Return(v)` or
    `Raise(IndexError | ValueError)`.
  - A file system is a map from path to the file's lines. Each line keeps
    its `'\n'`. A path missing from the map is a file that does not exist.
  - The invariant every operation keeps is `Valid()`: `dblen <= |dblist|`.
    The stronger `Consistent()` (`dblen == |dblist|`) is kept by every
    operation except a Load that raises after it has appended records. Such
    a Load leaves those records in the list and the count at 0.
- `SelfTest` (`selftest.dfy`) is the file's `__main__` self-test, written as
  a scenario whose outcomes are proved.

What the code does at its edges, as the model states it:

- `Read(idx)` checks only `idx < Size()`. A negative `idx` therefore counts
  from the end of the list, and one below `-len(dblist)` raises IndexError.
- `Replace(i, r)` relies on list assignment. So a negative `i` down to
  `-len(dblist)` overwrites from the end instead of failing, and the bounds
  are those of `dblist`, not `dblen`.
- `Load` keeps the records of the lines before a bad one: the list is not
  rolled back, only the count stays 0. `Load` raises ValueError both when a
  line has fewer than three fields and when its first field is not an
  integer.
- Decoding does not trim fields. A saved and reloaded record gets a space in
  front of its description (`Codec.Reloaded`), and each further save/load
  cycle adds one more (`Codec.ReloadedTwice`). Its weight comes back as
  `(" " + wgt).rstrip()`: a space in front of it, its trailing white space
  gone, and nothing at all for a blank weight.
- `IndexOfSN` applies `int()` inside its scan. When the count is 0 it
  answers -1 even for text that is not a number.

## Model

| member | source | states |
|---|---|---|
| `PyStr.RStripSpec` | ivdbase_class.py:57 | `rstrip()` yields a prefix of the line that does not end in white space, and everything it drops is white space |
| `PyStr.RStripAfter` | ivdbase_class.py:57 | right-stripping never removes a non-space character or anything before it: `(a + b).rstrip() == a + b.rstrip()` when `a` ends in a non-space |
| `PyStr.RStrip` | ivdbase_class.py:57 | `rstrip()` gives a prefix of its argument (`RStripSpec` says which one) |
| `PyStr.IntTrimEnds` | ivdbase_class.py:40 | the text `int()` reads, once the white space it skips is removed from both ends, neither starts nor ends with that white space |
| `PyStr.IntTrimSlice` | ivdbase_class.py:40 | that text is a contiguous slice of the argument with only skippable white space before and after it |
| `PyStr.Split` | ivdbase_class.py:58 | `split(',')` always yields at least one field |
| `PyStr.JoinSplit` | ivdbase_class.py:58 | `split(',')` loses nothing: joining the fields with commas rebuilds the line, and no field contains a comma |
| `PyStr.SplitJoin` | ivdbase_class.py:58 | `split(',')` inverts joining comma-free fields |
| `PyStr.SplitCount` | ivdbase_class.py:58-59 | the number of fields is the number of commas plus one |
| `PyStr.ShowNat` | ivdbase_class.py:48 | the decimal text of a natural number is a non-empty run of digits without a leading zero |
| `PyStr.ShowIntChars` | ivdbase_class.py:48 | `"%s" % sn` for an integer is a sign or digit followed by digits, with no comma and no white space |
| `PyStr.ShowInt` | ivdbase_class.py:48 | `"%s" % n` is non-empty and starts with a minus sign exactly when `n` is negative |
| `PyStr.ParseInt` | ivdbase_class.py:40 | `int(s)` succeeds exactly when the text, trimmed of the white space `int()` skips (ASCII `" \t\n\v\f\r"` and non-ASCII white space, but not `'\x1c'`..`'\x1f'`), is a run of digits or a sign followed by at least one digit; a leading minus gives a value at most 0, anything else a value at least 0 |
| `PyStr.ParseIntLeadingSpace` | ivdbase_class.py:40 | a character `int()` skips as white space, put in front of the text, does not change the result |
| `PyStr.ParseIntTrailingSpace` | ivdbase_class.py:40 | nor does one put after the text |
| `PyStr.IntRoundTrip` | ivdbase_class.py:39-40 | `int()` gives back every integer from its `%s` text |
| `Codec.ToInt` | ivdbase_class.py:82 | `int(sn)` never fails on an integer, and on text it succeeds exactly when the trimmed text is an optionally signed run of digits |
| `Codec.RecDecOfRecGen` | ivdbase_class.py:39-44 | `recGen` on an integer serial succeeds, and `recDec` of the result gives back the three values |
| `Codec.RecGen` | ivdbase_class.py:39-40 | `recGen` never fails on an integer serial; on a text serial it fails exactly when `int()` does, i.e. unless the trimmed text is an optionally signed run of digits; the description and weight are stored as given |
| `Codec.RecDec` | ivdbase_class.py:43-44 | `recGen` applied to the tuple `recDec(r)` gives back `r` |
| `Codec.RecGenOfShownSerial` | ivdbase_class.py:39-40 | `recGen` on the decimal text of a serial number gives the record with that number |
| `Codec.LineGenDisc` | ivdbase_class.py:47-48 | a rendered line is non-empty and ends with its newline |
| `Codec.LineGenDiscCommas` | ivdbase_class.py:47-48 | the line has exactly two separators plus every comma of the description and the weight: nothing is quoted, so a comma in either adds fields |
| `Codec.LineGen` | ivdbase_class.py:51-53 | the line of a record ends with its newline, and for a comma-free record `lineDec` takes it apart into `(str(sn), " " + desc, (" " + wgt).rstrip())` |
| `Codec.LineDec` | ivdbase_class.py:56-64 | each of the three fields it returns is free of commas |
| `Codec.LineDecNone` | ivdbase_class.py:56-64 | `lineDec` returns None exactly when the right-stripped line has fewer than two commas, i.e. fewer than three fields |
| `Codec.LineDecFields` | ivdbase_class.py:56-62 | otherwise the three fields are comma-free and untrimmed, they are the start of the right-stripped line joined by commas, and anything after them begins with a comma (extra fields are ignored) |
| `Codec.ReadBackWeight` | ivdbase_class.py:57 | the third field of a rendered line is the weight with one leading space when the weight ends in a non-space; a comma-free weight gives a comma-free field |
| `Codec.StrippedLine` | ivdbase_class.py:57 | right-stripping a rendered line removes the newline and the weight's trailing white space but stops at the last comma |
| `Codec.LineRoundTrip` | ivdbase_class.py:47-64 | `lineDec(lineGenDisc(sn, d, w)) == (str(sn), " " + d, (" " + w).rstrip())` when `d` and `w` contain no comma |
| `Codec.RecordRoundTrip` | ivdbase_class.py:39-64 | the line of a comma-free record decodes and `recGen`s to `Reloaded(r)`: the same serial number, a space prefixed to the description, and the weight as `(" " + wgt).rstrip()` |
| `Codec.DecodeLine` | ivdbase_class.py:98-101 | a line fails to decode (Load raises ValueError) exactly when `lineDec` returns None or `int()` of its first field fails; a decoded record holds no comma in its description or weight |
| `Codec.ReloadedTwice` | ivdbase_class.py:47-62 | the save/load round trip is not the identity: every cycle adds one leading space to the description |
| `Codec.CsvPath` | ivdbase_class.py:90-91 | the path is the name itself when the name ends in `.csv`, and the name followed by `.csv` otherwise; either way it ends in `.csv` |
| `Codec.CsvPathIdempotent` | ivdbase_class.py:111-112 | applying the `.csv` rule twice is applying it once |
| `Store.PyIndex` | ivdbase_class.py:134 | a list index is valid exactly when `-len <= i < len`, and it then denotes `i` or `len + i` |
| `Store.Ivdbase.Valid` | ivdbase_class.py:66-141 | the count `dblen` never exceeds `len(dblist)`: established by the constructor; ensured by Reset, Load, Append and Replace; required by IndexOfSN, Read, Append and Replace; Save, Read and IndexOfSN change nothing |
| `Store.Ivdbase.Consistent` | ivdbase_class.py:66-141 | the count equals `len(dblist)`; every method keeps it except a `Load` that raises after appending records |
| `Store.Ivdbase.constructor` | ivdbase_class.py:66-68 | a new store is empty, with count 0 |
| `Store.Ivdbase.Reset` | ivdbase_class.py:70-72 | the list is emptied and the count set to 0, restoring consistency |
| `Store.Ivdbase.Size` | ivdbase_class.py:74-75 | the count is at most the list length, and equals it in a consistent store |
| `Store.Ivdbase.IndexOfSN` | ivdbase_class.py:77-84 | gives the lowest index below the count whose serial is `int(sn)`, or -1 when there is none; raises ValueError exactly when the count is positive and `int(sn)` fails |
| `Store.Ivdbase.Load` | ivdbase_class.py:86-108 | clears the store; a missing file gives -1 and an empty store; otherwise the list holds the decoded records of the leading lines that decode, in file order; when all lines decode, it answers their count and the store is consistent; otherwise it raises ValueError at the first bad line with the count left at 0 |
| `Store.Ivdbase.Save` | ivdbase_class.py:110-118 | writes exactly `lineGen(r)` for each record of the list, in order, to the `.csv` path, leaves every other file alone and answers the list length |
| `Store.Ivdbase.Read` | ivdbase_class.py:120-125 | below the count it gives the record at `idx`, counting a negative `idx` from the end; it raises IndexError below `-len(dblist)`; at or above the count it gives None; it never changes the store |
| `Store.Ivdbase.Append` | ivdbase_class.py:127-130 | places the record at the end, keeps all earlier records, raises the count by one and always answers 0 |
| `Store.Ivdbase.Replace` | ivdbase_class.py:132-141 | answers 0 exactly when `-len(dblist) <= i < len(dblist)` and then overwrites only that one position; otherwise answers -1 and changes nothing; the count never changes |
| `Store.SaveResetLoad` | ivdbase_class.py:185-195 | Save, Reset, Load of storable records gives back as many records as were saved, each as `Reloaded` says, in a consistent store |
| `SelfTest.TestRecordStorable` | ivdbase_class.py:163-165 | the self-test's records hold no comma or line break |
| `SelfTest.EditedList` | ivdbase_class.py:168-171 | after the edit at index 1 the list still holds serials 1 to 10 in order |
| `SelfTest.FirstReloaded` | ivdbase_class.py:197-201 | the first record read back after the reload is `(1, " test-line-1", " 10")` |
| `SelfTest.AppendTen` | ivdbase_class.py:161-165 | appending the ten test records gives a consistent store holding exactly them, in order |
| `SelfTest.FillAndEdit` | ivdbase_class.py:161-175 | Replace at index 1 of the filled store succeeds and Replace at index 20 fails |
| `SelfTest.Run` | ivdbase_class.py:144-203 | in the self-test, Replace on an empty store fails, loading a missing file answers -1, serial 5 is found at index 4, and the reload returns all 10 saved records |

## Left out

- `pi-linv.py` is not part of this model. It is the interactive terminal
  menu, screen clearing through `os.system`, label and PDF rendering through
  external libraries, and file deletion. None of these carry a contract of
  the store.
- Real file I/O is not modelled: opening, UTF-8 encoding, the runtime's
  line iteration, and errors other than a missing file (permissions, a
  directory, a failing write). A file is the sequence of lines Save wrote.
  This matches the disk only when no field holds a line break; the Python
  runtime would also split at `'\r'`. `Store.Storable` therefore demands
  the absence of both.
- The `IVDBDEBUG` debug output and the console messages of `Load` and
  `Replace` are side-effect-only logging and are not modelled.
- PyStr.ParseInt: `int()` is narrowed to surrounding white space, an
  optional sign, then ASCII digits. It does not accept underscores between
  digits or non-ASCII decimal digits, and float arguments are not modelled.
- PyStr.IntRoundTrip: CPython limits int/str conversion to 4300 decimal
  digits by default (`sys.set_int_max_str_digits`); beyond that `"%s" % n`
  and `int(s)` raise ValueError. The model has no such limit, so
  `ShowInt`, `ParseInt` and the round trip hold for integers of any size.
- Weights are text. The self-test passes integers, which the model writes
  as their decimal text; Python's mixed int/str weights are not modelled.
- Records are values. In Python, `Read` hands out the stored dict itself
  and `Append` stores the caller's dict, so later changes through either
  reference would reach the store. That aliasing is not modelled.
