/** The word-list importers (src/core/DictionaryParser.cpp): the file's
    suffix picks a parser; CSV and TXT files are read line by line, JSON
    files as an array of entry objects. Each importer keeps, in input
    order, the records whose trimmed spelling is not empty.

    Reading and decoding the file is outside the model: a parser receives
    whether the file could be opened and its content already decoded, as
    lines or as a parsed JSON document. */
module Dictionary {
  import opened Words
  import opened Text

  // ---------------------------------------------------------------------
  // Choosing the parser

  datatype Format = JsonFormat | TxtFormat | CsvFormat

  /** The position of the last `c` in `s`, or -1. */
  function LastIndexOf(s: string, c: char): (i: int)
    ensures -1 <= i < |s|
    ensures i >= 0 ==> s[i] == c && c !in s[i + 1..]
    ensures i < 0 ==> c !in s
  {
    if s == [] then -1
    else if s[|s| - 1] == c then |s| - 1
    else
      var i := LastIndexOf(s[..|s| - 1], c);
      assert i >= 0 ==> s[i + 1..] == s[..|s| - 1][i + 1..] + [s[|s| - 1]];
      assert s == s[..|s| - 1] + [s[|s| - 1]];
      i
  }

  /** QFileInfo::fileName: the path after its last '/'. */
  function FileName(path: string): (name: string)
    ensures |name| <= |path| && '/' !in name
  {
    path[LastIndexOf(path, '/') + 1..]
  }

  /** The file name is the longest tail of the path without a '/'. */
  lemma FileNameIsLastSegment(path: string)
    ensures var name := FileName(path);
      && name == path[|path| - |name|..]
      && (|name| < |path| ==> path[|path| - |name| - 1] == '/')
  {
  }

  /** QFileInfo::suffix: the longest tail of the file name without a '.'
      when the name has a '.', and empty otherwise. */
  function Suffix(path: string): (ext: string)
    ensures '.' !in ext && '/' !in ext
    ensures var name := FileName(path);
      && ('.' in name ==> |ext| < |name|)
      && ('.' !in name ==> ext == "")
  {
    var name := FileName(path);
    var dot := LastIndexOf(name, '.');
    if dot < 0 then ""
    else
      var ext := name[dot + 1..];
      assert forall k :: 0 <= k < |ext| ==> ext[k] == name[dot + 1 + k];
      ext
  }

  /** The two suffixes parseFile compares against are already lower case. */
  lemma LowerSuffixesFold()
    ensures Fold("json") == "json" && Fold("txt") == "txt"
  {
    var j, t := Fold("json"), Fold("txt");
    assert j[0] == 'j' && j[1] == 's' && j[2] == 'o' && j[3] == 'n';
    assert t[0] == 't' && t[1] == 'x' && t[2] == 't';
  }

  /** parseFile's dispatch: "json" in any case picks the JSON parser,
      "txt" in any case the TXT parser, anything else the CSV parser. */
  function FormatOf(path: string): (f: Format)
    ensures f == JsonFormat <==> EqualsIgnoreCase(Suffix(path), "json")
    ensures f == TxtFormat <==> EqualsIgnoreCase(Suffix(path), "txt")
  {
    var suffix := Fold(Suffix(path));
    LowerSuffixesFold();
    if suffix == "json" then JsonFormat
    else if suffix == "txt" then TxtFormat
    else CsvFormat
  }

  lemma {:induction false} LastIndexOfAppend(x: string, y: string, c: char)
    requires c !in y
    ensures LastIndexOf(x + y, c) == LastIndexOf(x, c)
    decreases |y|
  {
    if y != [] {
      var s := x + y;
      assert s[..|s| - 1] == x + y[..|y| - 1];
      assert y[|y| - 1] in y;
      LastIndexOfAppend(x, y[..|y| - 1], c);
    } else {
      assert x + y == x;
    }
  }

  /** A path ending in ".ext", where ext has no '.' or '/', has suffix ext. */
  lemma SuffixOfExtension(stem: string, ext: string)
    requires '.' !in ext && '/' !in ext
    ensures Suffix(stem + "." + ext) == ext
  {
    var path := stem + "." + ext;
    assert path == (stem + ".") + ext;
    LastIndexOfAppend(stem + ".", ext, '/');
    LastIndexOfAppend(stem, ".", '/');
    var slash := LastIndexOf(stem, '/');
    var name := FileName(path);
    assert name == stem[slash + 1..] + "." + ext;
    LastIndexOfAppend(stem[slash + 1..] + ".", ext, '.');
    assert name[|stem| - slash..] == ext;
  }

  /** "json" in any case picks the JSON parser, "txt" the TXT parser, and
      every other extension the CSV parser. */
  lemma ExtensionSelectsParser(stem: string, ext: string)
    requires '.' !in ext && '/' !in ext
    ensures FormatOf(stem + "." + ext) ==
      if Fold(ext) == "json" then JsonFormat else if Fold(ext) == "txt" then TxtFormat else CsvFormat
  {
    SuffixOfExtension(stem, ext);
  }

  /** A file name without a '.' has no suffix and goes to the CSV parser. */
  lemma NoExtensionIsCsv(path: string)
    requires '.' !in FileName(path)
    ensures Suffix(path) == "" && FormatOf(path) == CsvFormat
  {
    assert Fold("") == "";
  }

  // ---------------------------------------------------------------------
  // Keeping records

  /** The records with a non-empty spelling, in order. */
  function Emitted(records: seq<Word>): (r: seq<Word>)
    ensures |r| <= |records|
    ensures forall k :: 0 <= k < |r| ==> r[k].spelling != [] && r[k] in records
  {
    if records == [] then []
    else
      var last := records[|records| - 1];
      var front := Emitted(records[..|records| - 1]);
      assert forall w :: w in records[..|records| - 1] ==> w in records;
      front + (if last.spelling != [] then [last] else [])
  }

  /** The record of each line, in order. */
  function Records(lines: seq<string>, parse: string -> Word): (r: seq<Word>)
    ensures |r| == |lines| && forall k :: 0 <= k < |lines| ==> r[k] == parse(lines[k])
  {
    seq(|lines|, k requires 0 <= k < |lines| => parse(lines[k]))
  }

  lemma RecordsSnoc(lines: seq<string>, i: nat, parse: string -> Word)
    requires i < |lines|
    ensures Records(lines[..i + 1], parse) == Records(lines[..i], parse) + [parse(lines[i])]
  {
    var a, b := Records(lines[..i + 1], parse), Records(lines[..i], parse) + [parse(lines[i])];
    assert |a| == |b|;
    forall k | 0 <= k < |a| ensures a[k] == b[k] {
      assert lines[..i + 1][k] == lines[k];
    }
  }

  lemma EmittedSnoc(records: seq<Word>, w: Word)
    ensures Emitted(records + [w]) == Emitted(records) + (if w.spelling != [] then [w] else [])
  {
    assert (records + [w])[..|records|] == records;
  }

  /** Emitting keeps the input order and drops exactly the records with an
      empty spelling. */
  lemma {:induction false} EmittedIsFilter(records: seq<Word>)
    ensures Subsequence(Emitted(records), records)
    ensures forall w :: w in records && w.spelling != [] ==> w in Emitted(records)
    decreases |records|
  {
    if records != [] {
      var front := records[..|records| - 1];
      var last := records[|records| - 1];
      assert records == front + [last];
      EmittedIsFilter(front);
      if last.spelling != [] {
        assert Emitted(records) == Emitted(front) + [last];
        SubsequenceSnoc(Emitted(front), front, last);
      } else {
        assert Emitted(records) == Emitted(front);
        SubsequenceExtend(Emitted(front), front, last);
      }
    } else {
      assert Emitted(records) == [];
    }
  }

  // ---------------------------------------------------------------------
  // CSV

  /** A character of the CJK block U+4E00..U+9FA5, the range the CSV
      importer's pattern is meant to match. */
  predicate IsHan(c: char) {
    '\U{4E00}' <= c <= '\U{9FA5}'
  }

  predicate HasHan(s: string) {
    exists k :: 0 <= k < |s| && IsHan(s[k])
  }

  function FieldOr(parts: seq<string>, k: nat): string {
    if k < |parts| then Trim(parts[k]) else ""
  }

  /** One CSV line: split on every comma, no quoting. Two fields are the
      spelling and either the definition (when the second holds a CJK
      character) or the phonetic; otherwise the fields are spelling,
      phonetic, definition, example and ';'-separated tags. */
  function CsvRecord(line: string): (w: Word)
    ensures w.id == BlankWord.id && w.bookId == BlankWord.bookId && !w.isFavorite
  {
    var parts := Split(line, ',');
    var base := BlankWord.(spelling := Trim(parts[0]));
    if |parts| == 2 then
      var second := Trim(parts[1]);
      if HasHan(second) then base.(definition := second) else base.(phonetic := second)
    else
      base.(phonetic := FieldOr(parts, 1), definition := FieldOr(parts, 2), example := FieldOr(parts, 3),
            tags := if |parts| > 4 then NonEmpty(Split(Trim(parts[4]), ';')) else [])
  }

  /** A line made of comma-free fields maps field by field: the spelling
      is the first field; with exactly two fields the second is the
      definition or the phonetic by script; otherwise fields 1..3 are
      phonetic, definition and example, field 4 the tags, the rest
      ignored. */
  lemma CsvFieldAssignment(fields: seq<string>)
    requires |fields| >= 1 && forall k :: 0 <= k < |fields| ==> ',' !in fields[k]
    ensures var w := CsvRecord(Join(fields, ','));
      && w.spelling == Trim(fields[0])
      && (|fields| == 2 && HasHan(Trim(fields[1])) ==> w.definition == Trim(fields[1]) && w.phonetic == "")
      && (|fields| == 2 && !HasHan(Trim(fields[1])) ==> w.phonetic == Trim(fields[1]) && w.definition == "")
      && (|fields| != 2 ==>
            && w.phonetic == FieldOr(fields, 1) && w.definition == FieldOr(fields, 2)
            && w.example == FieldOr(fields, 3)
            && w.tags == if |fields| > 4 then NonEmpty(Split(Trim(fields[4]), ';')) else [])
  {
    SplitJoin(fields, ',');
  }

  /** parseCsv as written: its pattern spells the range with `\u`
      escapes, which the regular-expression engine rejects, so the test for
      a CJK character never succeeds and a two-field line always puts its
      second field in the phonetic. Otherwise it agrees with CsvRecord. */
  function CsvRecordAsWritten(line: string): (w: Word)
    ensures var parts := Split(line, ',');
      && w.spelling == CsvRecord(line).spelling
      && (|parts| == 2 ==> w.phonetic == Trim(parts[1]) && w.definition == "" && w.example == "" && w.tags == [])
      && (|parts| != 2 ==> w == CsvRecord(line))
  {
    var parts := Split(line, ',');
    var base := BlankWord.(spelling := Trim(parts[0]));
    if |parts| == 2 then base.(phonetic := Trim(parts[1]))
    else CsvRecord(line)
  }

  /** A two-field line whose trimmed second field holds a CJK character
      differs: as written the field lands in the phonetic, while the
      intended test puts it in the definition. */
  lemma CsvGlossMisfiled(spelling: string, gloss: string)
    requires ',' !in spelling && ',' !in gloss && HasHan(Trim(gloss))
    ensures var line := spelling + [','] + gloss;
      && CsvRecordAsWritten(line).phonetic == Trim(gloss) && CsvRecordAsWritten(line).definition == ""
      && CsvRecord(line).definition == Trim(gloss) && CsvRecord(line).phonetic == ""
  {
    SplitAfter(spelling, ',', gloss);
    SplitWithoutSeparator(gloss, ',');
  }

  /** The line `apple,苹果` is such a line. */
  lemma CsvChineseGlossMisfiled()
    ensures CsvRecordAsWritten("apple,苹果").phonetic == "苹果"
    ensures CsvRecordAsWritten("apple,苹果").definition == ""
    ensures CsvRecord("apple,苹果").definition == "苹果"
    ensures CsvRecord("apple,苹果").phonetic == ""
  {
    var spelling, gloss := "apple", "苹果";
    assert spelling + [','] + gloss == "apple,苹果";
    assert IsHan(gloss[0]);
    TrimPadded([], gloss, []);
    assert [] + gloss + [] == gloss;
    CsvGlossMisfiled(spelling, gloss);
  }

  /** The body of parseCsv's loop: one line's fields assigned one by one. */
  method CsvLine(line: string) returns (w: Word)
    ensures w == CsvRecord(line)
  {
    var parts := Split(line, ',');
    w := BlankWord.(spelling := Trim(parts[0]));
    if |parts| == 2 {
      var second := Trim(parts[1]);
      if HasHan(second) {
        w := w.(definition := second);
      } else {
        w := w.(phonetic := second);
      }
    } else {
      if |parts| > 1 { w := w.(phonetic := Trim(parts[1])); }
      if |parts| > 2 { w := w.(definition := Trim(parts[2])); }
      if |parts| > 3 { w := w.(example := Trim(parts[3])); }
      if |parts| > 4 { w := w.(tags := NonEmpty(Split(Trim(parts[4]), ';'))); }
    }
  }

  /** parseCsv over the decoded lines. */
  method ParseCsv(readable: bool, lines: seq<string>) returns (words: seq<Word>)
    ensures words == if readable then Emitted(Records(lines, CsvRecord)) else []
  {
    words := [];
    if !readable {
      return;
    }
    var i := 0;
    while i < |lines|
      invariant 0 <= i <= |lines|
      invariant words == Emitted(Records(lines[..i], CsvRecord))
    {
      var w := CsvLine(lines[i]);
      RecordsSnoc(lines, i, CsvRecord);
      EmittedSnoc(Records(lines[..i], CsvRecord), w);
      if w.spelling != [] {
        words := words + [w];
      }
      i := i + 1;
    }
    assert lines[..i] == lines;
  }

  // ---------------------------------------------------------------------
  // TXT

  /** One TXT line: its trimmed text split by TxtFields. */
  function TxtRecord(line: string): (w: Word)
    ensures w.id == BlankWord.id && w.bookId == BlankWord.bookId && !w.isFavorite
    ensures w.phonetic == "" && w.example == "" && w.tags == []
  {
    TxtFields(Trim(line))
  }

  /** A trimmed TXT line: split on '|' if it has one, else on a tab; part 0
      is the spelling and part 1 the definition; with neither separator the
      whole line is the spelling. */
  function TxtFields(t: string): (w: Word)
    ensures w.id == BlankWord.id && w.bookId == BlankWord.bookId && !w.isFavorite
    ensures w.phonetic == "" && w.example == "" && w.tags == []
  {
    if '|' in t then
      var parts := Split(t, '|');
      BlankWord.(spelling := Trim(parts[0]), definition := FieldOr(parts, 1))
    else if '\t' in t then
      var parts := Split(t, '\t');
      BlankWord.(spelling := Trim(parts[0]), definition := FieldOr(parts, 1))
    else BlankWord.(spelling := t)
  }

  /** The first two parts of a string split on `sep`, when the first two
      are free of it. */
  lemma SplitTwo(a: string, sep: char, b: string, tail: string)
    requires sep !in a && sep !in b && (tail == [] || tail[0] == sep)
    ensures var parts := Split(a + [sep] + b + tail, sep);
      |parts| >= 2 && parts[0] == a && parts[1] == b
  {
    var s := a + [sep] + b + tail;
    assert s == a + [sep] + (b + tail);
    IndexOfAfter(a, sep, b + tail);
    assert s[..|a|] == a && s[|a| + 1..] == b + tail;
    if tail == [] {
      assert b + tail == b;
    } else {
      assert b + tail == b + [sep] + tail[1..];
      IndexOfAfter(b, sep, tail[1..]);
    }
  }

  /** A '|' line: the part before the first '|' is the spelling and the
      next part the definition, whatever else (tabs, more parts) the line
      holds. */
  lemma TxtPipeLine(line: string, a: string, b: string, tail: string)
    requires Trim(line) == a + "|" + b + tail
    requires '|' !in a && '|' !in b && (tail == [] || tail[0] == '|')
    ensures TxtRecord(line) == BlankWord.(spelling := Trim(a), definition := Trim(b))
  {
    SplitTwo(a, '|', b, tail);
    assert Trim(line)[|a|] == '|';
  }

  /** A tab line without '|': spelling before the first tab, definition
      after it. */
  lemma TxtTabLine(line: string, a: string, b: string, tail: string)
    requires Trim(line) == a + "\t" + b + tail
    requires '|' !in Trim(line) && '\t' !in a && '\t' !in b && (tail == [] || tail[0] == '\t')
    ensures TxtRecord(line) == BlankWord.(spelling := Trim(a), definition := Trim(b))
  {
    SplitTwo(a, '\t', b, tail);
    assert Trim(line)[|a|] == '\t';
  }

  /** A line with neither separator is the spelling alone. */
  lemma TxtPlainLine(line: string)
    requires '|' !in Trim(line) && '\t' !in Trim(line)
    ensures TxtRecord(line) == BlankWord.(spelling := Trim(line))
  {
  }

  /** The body of parseTxt's loop after the blank-line check, on the
      trimmed line. */
  method TxtLine(line: string) returns (w: Word)
    ensures w == TxtFields(line)
  {
    w := BlankWord;
    if '|' in line {
      var parts := Split(line, '|');
      w := w.(spelling := Trim(parts[0]));
      if |parts| > 1 { w := w.(definition := Trim(parts[1])); }
    } else if '\t' in line {
      var parts := Split(line, '\t');
      w := w.(spelling := Trim(parts[0]));
      if |parts| > 1 { w := w.(definition := Trim(parts[1])); }
    } else {
      w := w.(spelling := line);
    }
  }

  /** The record depends only on the trimmed line, and a blank line gives
      an empty spelling. */
  lemma TxtRecordOfTrimmed(line: string)
    ensures TxtRecord(Trim(line)) == TxtRecord(line)
    ensures Trim(line) == [] ==> TxtRecord(line).spelling == []
  {
    TrimIdempotent(line);
  }

  /** One pass of parseTxt's loop: trim the line; a blank line yields the
      blank record (skipped by the caller), any other is parsed. */
  method TxtStep(raw: string) returns (w: Word)
    ensures w == TxtRecord(raw)
  {
    var line := Trim(raw);
    TxtRecordOfTrimmed(raw);
    if line == [] {
      w := BlankWord;
    } else {
      w := TxtLine(line);
    }
  }

  /** parseTxt over the decoded lines. */
  method ParseTxt(readable: bool, lines: seq<string>) returns (words: seq<Word>)
    ensures words == if readable then Emitted(Records(lines, TxtRecord)) else []
  {
    words := [];
    if !readable {
      return;
    }
    var i := 0;
    while i < |lines|
      invariant 0 <= i <= |lines|
      invariant words == Emitted(Records(lines[..i], TxtRecord))
    {
      var w := TxtStep(lines[i]);
      RecordsSnoc(lines, i, TxtRecord);
      EmittedSnoc(Records(lines[..i], TxtRecord), w);
      if w.spelling != [] {
        words := words + [w];
      }
      i := i + 1;
    }
    assert lines[..i] == lines;
  }

  // ---------------------------------------------------------------------
  // JSON

  /** A parsed JSON value. */
  datatype Json =
    | JNull
    | JBool(b: bool)
    | JNumber(n: int)
    | JString(str: string)
    | JArray(items: seq<Json>)
    | JObject(fields: map<string, Json>)

  /** QJsonValue::toString: the text of a string, "" for anything else. */
  function Str(v: Json): string {
    if v.JString? then v.str else ""
  }

  /** A member of an object, null when missing. */
  function Member(fields: map<string, Json>, key: string): Json {
    if key in fields then fields[key] else JNull
  }

  /** QJsonValue::toObject: the members of an object, none for anything else. */
  function Members(v: Json): map<string, Json> {
    if v.JObject? then v.fields else map[]
  }

  /** The entries: a top-level array, or an object's "words" array, or its
      "data" array; nothing otherwise, or when the document did not parse. */
  function Entries(doc: Option<Json>): seq<Json> {
    match doc
    case None => []
    case Some(JArray(items)) => items
    case Some(JObject(fields)) =>
      if "words" in fields && fields["words"].JArray? then fields["words"].items
      else if "data" in fields && fields["data"].JArray? then fields["data"].items
      else []
    case Some(_) => []
  }

  /** The text of the first of `keys` the object has, or "". */
  function FirstKey(fields: map<string, Json>, keys: seq<string>): string {
    if keys == [] then ""
    else if keys[0] in fields then Str(fields[keys[0]])
    else FirstKey(fields, keys[1..])
  }

  /** The key fallback: the first key present wins, later ones are not
      looked at. */
  lemma {:induction false} FirstKeyPriority(fields: map<string, Json>, keys: seq<string>, i: nat)
    requires i < |keys| && keys[i] in fields
    requires forall j :: 0 <= j < i ==> keys[j] !in fields
    ensures FirstKey(fields, keys) == Str(fields[keys[i]])
    decreases i
  {
    if i > 0 {
      assert keys[0] !in fields;
      FirstKeyPriority(fields, keys[1..], i - 1);
    }
  }

  /** No key present gives "". */
  lemma {:induction false} FirstKeyAbsent(fields: map<string, Json>, keys: seq<string>)
    requires forall j :: 0 <= j < |keys| ==> keys[j] !in fields
    ensures FirstKey(fields, keys) == ""
    decreases |keys|
  {
    if keys != [] {
      FirstKeyAbsent(fields, keys[1..]);
    }
  }

  const SpellingKeys: seq<string> := ["spelling", "word", "headWord"]
  const PhoneticKeys: seq<string> := ["phonetic", "phone", "usphone"]
  const DefinitionKeys: seq<string> := ["definition", "trans", "mean"]

  /** "example", or else the first sentence's text and translation joined
      by a newline. */
  function Example(fields: map<string, Json>): string {
    if "example" in fields then Str(fields["example"])
    else if "sentences" in fields && fields["sentences"].JArray? && fields["sentences"].items != [] then
      var first := Members(fields["sentences"].items[0]);
      Str(Member(first, "sContent")) + "\n" + Str(Member(first, "sCn"))
    else ""
  }

  /** One entry object; only the spelling is trimmed. */
  function JsonRecord(fields: map<string, Json>): (w: Word)
    ensures w.id == BlankWord.id && w.bookId == BlankWord.bookId && !w.isFavorite && w.tags == []
  {
    BlankWord.(
      spelling := Trim(FirstKey(fields, SpellingKeys)),
      phonetic := FirstKey(fields, PhoneticKeys),
      definition := FirstKey(fields, DefinitionKeys),
      example := Example(fields))
  }

  /** The records of the entries that are objects, in order. */
  function JsonRecords(entries: seq<Json>): (r: seq<Word>)
    ensures |r| <= |entries|
  {
    if entries == [] then []
    else
      var last := entries[|entries| - 1];
      JsonRecords(entries[..|entries| - 1]) + (if last.JObject? then [JsonRecord(last.fields)] else [])
  }

  lemma JsonRecordsSnoc(entries: seq<Json>, i: nat)
    requires i < |entries|
    ensures JsonRecords(entries[..i + 1]) ==
      JsonRecords(entries[..i]) + (if entries[i].JObject? then [JsonRecord(entries[i].fields)] else [])
  {
    assert entries[..i + 1][..i] == entries[..i];
  }

  /** "spelling" beats "word", which beats "headWord". */
  lemma JsonSpellingPriority(fields: map<string, Json>)
    ensures "spelling" in fields ==> JsonRecord(fields).spelling == Trim(Str(fields["spelling"]))
    ensures "spelling" !in fields && "word" in fields ==> JsonRecord(fields).spelling == Trim(Str(fields["word"]))
    ensures "spelling" !in fields && "word" !in fields && "headWord" in fields ==>
      JsonRecord(fields).spelling == Trim(Str(fields["headWord"]))
    ensures "spelling" !in fields && "word" !in fields && "headWord" !in fields ==>
      JsonRecord(fields).spelling == ""
  {
    if "spelling" in fields {
      FirstKeyPriority(fields, SpellingKeys, 0);
    } else if "word" in fields {
      FirstKeyPriority(fields, SpellingKeys, 1);
    } else if "headWord" in fields {
      FirstKeyPriority(fields, SpellingKeys, 2);
    } else {
      FirstKeyAbsent(fields, SpellingKeys);
      assert Trim("") == "";
    }
  }

  /** "definition" beats "trans", which beats "mean"; likewise "phonetic",
      "phone", "usphone". */
  lemma JsonDefinitionPriority(fields: map<string, Json>)
    ensures "definition" in fields ==> JsonRecord(fields).definition == Str(fields["definition"])
    ensures "definition" !in fields && "trans" in fields ==> JsonRecord(fields).definition == Str(fields["trans"])
    ensures "definition" !in fields && "trans" !in fields && "mean" in fields ==>
      JsonRecord(fields).definition == Str(fields["mean"])
    ensures "phonetic" in fields ==> JsonRecord(fields).phonetic == Str(fields["phonetic"])
    ensures "phonetic" !in fields && "phone" in fields ==> JsonRecord(fields).phonetic == Str(fields["phone"])
    ensures "phonetic" !in fields && "phone" !in fields && "usphone" in fields ==>
      JsonRecord(fields).phonetic == Str(fields["usphone"])
  {
    if "definition" in fields {
      FirstKeyPriority(fields, DefinitionKeys, 0);
    } else if "trans" in fields {
      FirstKeyPriority(fields, DefinitionKeys, 1);
    } else if "mean" in fields {
      FirstKeyPriority(fields, DefinitionKeys, 2);
    }
    if "phonetic" in fields {
      FirstKeyPriority(fields, PhoneticKeys, 0);
    } else if "phone" in fields {
      FirstKeyPriority(fields, PhoneticKeys, 1);
    } else if "usphone" in fields {
      FirstKeyPriority(fields, PhoneticKeys, 2);
    }
  }

  /** parseJson over the parsed document. */
  method ParseJson(readable: bool, doc: Option<Json>) returns (words: seq<Word>)
    ensures words == if readable then Emitted(JsonRecords(Entries(doc))) else []
  {
    words := [];
    if !readable {
      return;
    }
    var entries := Entries(doc);
    var i := 0;
    while i < |entries|
      invariant 0 <= i <= |entries|
      invariant words == Emitted(JsonRecords(entries[..i]))
    {
      JsonRecordsSnoc(entries, i);
      var val := entries[i];
      if val.JObject? {
        var w := JsonRecord(val.fields);
        EmittedSnoc(JsonRecords(entries[..i]), w);
        assert JsonRecords(entries[..i + 1]) == JsonRecords(entries[..i]) + [w];
        if w.spelling != [] {
          words := words + [w];
        }
      } else {
        assert JsonRecords(entries[..i + 1]) == JsonRecords(entries[..i]);
      }
      i := i + 1;
    }
    assert entries[..i] == entries;
  }

  // ---------------------------------------------------------------------
  // The entry point

  /** parseFile: dispatch on the suffix. Whatever the format, every word
      has a non-empty spelling, is not a favourite, and there are no more
      words than lines or entries. */
  method ParseFile(path: string, readable: bool, lines: seq<string>, doc: Option<Json>) returns (words: seq<Word>)
    ensures FormatOf(path) == JsonFormat ==> words == (if readable then Emitted(JsonRecords(Entries(doc))) else [])
    ensures FormatOf(path) == TxtFormat ==> words == (if readable then Emitted(Records(lines, TxtRecord)) else [])
    ensures FormatOf(path) == CsvFormat ==> words == (if readable then Emitted(Records(lines, CsvRecord)) else [])
    ensures forall k :: 0 <= k < |words| ==> words[k].spelling != [] && !words[k].isFavorite
    ensures |words| <= if FormatOf(path) == JsonFormat then |Entries(doc)| else |lines|
  {
    var format := FormatOf(path);
    if format == JsonFormat {
      words := ParseJson(readable, doc);
      JsonRecordsNotFavorite(Entries(doc));
      EmittedNotFavorite(JsonRecords(Entries(doc)));
    } else if format == TxtFormat {
      words := ParseTxt(readable, lines);
      EmittedNotFavorite(Records(lines, TxtRecord));
    } else {
      words := ParseCsv(readable, lines);
      EmittedNotFavorite(Records(lines, CsvRecord));
    }
  }

  lemma EmittedNotFavorite(records: seq<Word>)
    requires forall w :: w in records ==> !w.isFavorite
    ensures forall k :: 0 <= k < |Emitted(records)| ==> !Emitted(records)[k].isFavorite
  {
  }

  lemma {:induction false} JsonRecordsNotFavorite(entries: seq<Json>)
    ensures forall w :: w in JsonRecords(entries) ==> !w.isFavorite
    decreases |entries|
  {
    if entries != [] {
      JsonRecordsNotFavorite(entries[..|entries| - 1]);
    }
  }
}
