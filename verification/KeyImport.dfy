/** Bulk import: parse_keys_text of app/core/key_import.py and import_keys_text of app/api/control_plane.py. */
module KeyImport {
  import opened Prelude

  // ------------------------------------------------------------------- fields

  /** The characters str.strip and str.split take for whitespace. */
  predicate IsSpace(c: char) {
    var n := c as int;
    || 9 <= n <= 13 || 28 <= n <= 32 || n == 0x85 || n == 0xA0 || n == 0x1680 || 0x2000 <= n <= 0x200A
    || n == 0x2028 || n == 0x2029 || n == 0x202F || n == 0x205F || n == 0x3000
  }

  function StripLeft(s: string): string {
    if s != "" && IsSpace(s[0]) then StripLeft(s[1..]) else s
  }

  function StripRight(s: string): string {
    if s != "" && IsSpace(s[|s| - 1]) then StripRight(s[..|s| - 1]) else s
  }

  function Strip(s: string): string {
    StripRight(StripLeft(s))
  }

  /** str.split with a separator. */
  function Split(s: string, sep: char): (parts: seq<string>)
    ensures parts != []
  {
    if s == "" then [""]
    else
      var rest := Split(s[1..], sep);
      if s[0] == sep then [""] + rest else [[s[0]] + rest[0]] + rest[1..]
  }

  function Join(parts: seq<string>, sep: char): string {
    if parts == [] then ""
    else if |parts| == 1 then parts[0]
    else parts[0] + [sep] + Join(parts[1..], sep)
  }

  /** str.split at every whitespace character; the empty pieces are dropped later. */
  function SplitAtSpace(s: string): (parts: seq<string>)
    ensures parts != []
  {
    if s == "" then [""]
    else
      var rest := SplitAtSpace(s[1..]);
      if IsSpace(s[0]) then [""] + rest else [[s[0]] + rest[0]] + rest[1..]
  }

  function StripAll(parts: seq<string>): seq<string> {
    if parts == [] then [] else [Strip(parts[0])] + StripAll(parts[1..])
  }

  function NonEmpty(parts: seq<string>): seq<string> {
    if parts == [] then [] else (if parts[0] == "" then [] else [parts[0]]) + NonEmpty(parts[1..])
  }

  /** _split_fields */
  function SplitFields(line: string): seq<string> {
    StripAll(
      if '|' in line then Split(line, '|')
      else if '\t' in line then Split(line, '\t')
      else if ',' in line then Split(line, ',')
      else SplitAtSpace(line))
  }

  /** One account line; `verified` is a point in time. */
  datatype Item = Item(lineNo: nat, apiKey: string, username: Option<string>, password: Option<string>,
                       verified: Option<real>)

  datatype Parsed = Blank | Failed(lineNo: nat) | Good(item: Item)

  /** The date parser; None when it raises. */
  type DateParser = string -> Option<real>

  const MIN_KEY_LENGTH := 8

  function ItemOf(lineNo: nat, key: string, username: Option<string>, password: Option<string>,
                  verified: Option<real>): Parsed {
    if |Strip(key)| < MIN_KEY_LENGTH then Failed(lineNo)
    else Good(Item(lineNo, Strip(key), username, password, verified))
  }

  /** (value or "").strip() or None */
  function OrNone(s: string): Option<string> {
    if Strip(s) == "" then None else Some(Strip(s))
  }

  function ParseLine(lineNo: nat, raw: string, date: DateParser): Parsed {
    var line := Strip(raw);
    if line == "" || line[0] == '#' then Blank
    else
      var p := NonEmpty(SplitFields(line));
      match |p|
      case 1 => ItemOf(lineNo, p[0], None, None, None)
      case 2 => ItemOf(lineNo, p[1], OrNone(p[0]), None, None)
      case 3 => ItemOf(lineNo, p[2], OrNone(p[0]), OrNone(p[1]), None)
      case 4 =>
        if date(p[3]).None? then Failed(lineNo)
        else ItemOf(lineNo, p[2], OrNone(p[0]), OrNone(p[1]), date(p[3]))
      case _ => Failed(lineNo)
  }

  /** The items and the failed line numbers, in line order. */
  function ItemsOf(lines: seq<string>, date: DateParser): seq<Item> {
    if lines == [] then []
    else
      var n := |lines| - 1;
      ItemsOf(lines[..n], date)
      + match ParseLine(n + 1, lines[n], date) case Good(item) => [item] case _ => []
  }

  function FailuresOf(lines: seq<string>, date: DateParser): seq<nat> {
    if lines == [] then []
    else
      var n := |lines| - 1;
      FailuresOf(lines[..n], date)
      + match ParseLine(n + 1, lines[n], date) case Failed(lineNo) => [lineNo] case _ => []
  }

  /** Lines that are neither blank nor a comment. */
  function ContentLines(lines: seq<string>): nat {
    if lines == [] then 0
    else
      var line := Strip(lines[|lines| - 1]);
      ContentLines(lines[..|lines| - 1]) + if line == "" || line[0] == '#' then 0 else 1
  }

  /** Every content line becomes an item or a failure. */
  lemma {:induction false} ParsingLosesNoLine(lines: seq<string>, date: DateParser)
    ensures |ItemsOf(lines, date)| + |FailuresOf(lines, date)| == ContentLines(lines)
  {
    if lines != [] {
      ParsingLosesNoLine(lines[..|lines| - 1], date);
    }
  }

  /** An API key has at least eight characters; it and the optional texts are not empty and have no white space
      around them. */
  predicate Clean(item: Item) {
    && |item.apiKey| >= MIN_KEY_LENGTH && Tight(item.apiKey)
    && (item.username.Some? ==> Tight(item.username.value))
    && (item.password.Some? ==> Tight(item.password.value))
  }

  lemma ItemIsClean(lineNo: nat, key: string, username: string, password: string, verified: Option<real>)
    ensures forall u, p :: u in {None, OrNone(username)} && p in {None, OrNone(password)} ==>
              var parsed := ItemOf(lineNo, key, u, p, verified);
              parsed.Good? ==> Clean(parsed.item) && parsed.item.lineNo == lineNo
  {
    StripTightens(key);
    StripTightens(username);
    StripTightens(password);
  }

  lemma LineIsClean(lineNo: nat, raw: string, date: DateParser)
    ensures var parsed := ParseLine(lineNo, raw, date);
            parsed.Good? ==> Clean(parsed.item) && parsed.item.lineNo == lineNo
  {
    var p := NonEmpty(SplitFields(Strip(raw)));
    if |p| == 1 {
      ItemIsClean(lineNo, p[0], "", "", None);
    } else if |p| == 2 {
      ItemIsClean(lineNo, p[1], p[0], "", None);
    } else if |p| == 3 {
      ItemIsClean(lineNo, p[2], p[0], p[1], None);
    } else if |p| == 4 {
      ItemIsClean(lineNo, p[2], p[0], p[1], date(p[3]));
    }
  }

  lemma {:induction false} ItemsAreClean(lines: seq<string>, date: DateParser)
    ensures forall item :: item in ItemsOf(lines, date) ==> Clean(item) && 1 <= item.lineNo <= |lines|
  {
    if lines != [] {
      var n := |lines| - 1;
      ItemsAreClean(lines[..n], date);
      LineIsClean(n + 1, lines[n], date);
    }
  }

  predicate AllTight(parts: seq<string>) {
    forall i :: 0 <= i < |parts| ==> Tight(parts[i])
  }

  predicate Tight(s: string) {
    s != "" && !IsSpace(s[0]) && !IsSpace(s[|s| - 1])
  }

  lemma {:induction false} StripRightTightens(s: string)
    requires s == "" || !IsSpace(s[0])
    ensures StripRight(s) == "" || Tight(StripRight(s))
    ensures Tight(s) ==> StripRight(s) == s
  {
    if s != "" && IsSpace(s[|s| - 1]) {
      StripRightTightens(s[..|s| - 1]);
    }
  }

  lemma {:induction false} StripLeftTightens(s: string)
    ensures StripLeft(s) == "" || !IsSpace(StripLeft(s)[0])
    ensures Tight(s) ==> StripLeft(s) == s
  {
    if s != "" && IsSpace(s[0]) {
      StripLeftTightens(s[1..]);
    }
  }

  lemma StripTightens(s: string)
    ensures Strip(s) == "" || Tight(Strip(s))
    ensures Tight(s) ==> Strip(s) == s
  {
    StripLeftTightens(s);
    StripRightTightens(StripLeft(s));
  }

  // --------------------------------------------------------------- round trip

  lemma {:induction false} SplitPlain(s: string, sep: char)
    requires sep !in s
    ensures Split(s, sep) == [s]
  {
    if s != "" {
      SplitPlain(s[1..], sep);
      assert [s[0]] + s[1..] == s;
    }
  }

  lemma {:induction false} SplitAfter(s: string, sep: char, rest: string)
    requires sep !in s
    ensures Split(s + [sep] + rest, sep) == [s] + Split(rest, sep)
  {
    var t := s + [sep] + rest;
    if s == "" {
      assert t[1..] == rest;
    } else {
      assert t[1..] == s[1..] + [sep] + rest;
      SplitAfter(s[1..], sep, rest);
      assert [s[0]] + s[1..] == s;
    }
  }

  /** Splitting undoes joining. */
  lemma {:induction false} SplitJoin(parts: seq<string>, sep: char)
    requires parts != [] && forall p :: p in parts ==> sep !in p
    ensures Split(Join(parts, sep), sep) == parts
  {
    if |parts| == 1 {
      SplitPlain(parts[0], sep);
    } else {
      SplitJoin(parts[1..], sep);
      SplitAfter(parts[0], sep, Join(parts[1..], sep));
    }
  }

  /** Joining undoes splitting. */
  lemma {:induction false} JoinSplit(s: string, sep: char)
    ensures Join(Split(s, sep), sep) == s
    ensures forall p :: p in Split(s, sep) ==> sep !in p
  {
    if s != "" {
      var rest := Split(s[1..], sep);
      JoinSplit(s[1..], sep);
      if s[0] == sep {
        assert ([""] + rest)[1..] == rest;
      } else {
        var all := [[s[0]] + rest[0]] + rest[1..];
        assert all[1..] == rest[1..];
        assert rest[0] in rest;
      }
    }
  }

  lemma {:induction false} JoinEnds(parts: seq<string>, sep: char)
    requires parts != [] && AllTight(parts)
    ensures Tight(Join(parts, sep)) && Join(parts, sep)[0] == parts[0][0]
    ensures |parts| >= 2 ==> sep in Join(parts, sep)
  {
    if |parts| > 1 {
      JoinEnds(parts[1..], sep);
      var tail := Join(parts[1..], sep);
      var whole := parts[0] + [sep] + tail;
      assert whole[|whole| - 1] == tail[|tail| - 1];
      assert whole[|parts[0]|] == sep;
    }
  }

  lemma {:induction false} TightPartsStay(parts: seq<string>)
    requires AllTight(parts)
    ensures NonEmpty(StripAll(parts)) == parts
  {
    if parts != [] {
      StripTightens(parts[0]);
      TightPartsStay(parts[1..]);
    }
  }

  predicate NoSpace(s: string) {
    forall i :: 0 <= i < |s| ==> !IsSpace(s[i])
  }

  lemma {:induction false} SpacePlain(s: string)
    requires NoSpace(s)
    ensures SplitAtSpace(s) == [s]
  {
    if s != "" {
      SpacePlain(s[1..]);
      assert [s[0]] + s[1..] == s;
    }
  }

  lemma {:induction false} SpaceAfter(s: string, sep: char, rest: string)
    requires IsSpace(sep) && NoSpace(s)
    ensures SplitAtSpace(s + [sep] + rest) == [s] + SplitAtSpace(rest)
  {
    var t := s + [sep] + rest;
    if s == "" {
      assert t[1..] == rest;
    } else {
      assert t[1..] == s[1..] + [sep] + rest;
      SpaceAfter(s[1..], sep, rest);
      assert [s[0]] + s[1..] == s;
    }
  }

  lemma {:induction false} SpaceSplitJoin(parts: seq<string>)
    requires parts != [] && forall p :: p in parts ==> NoSpace(p)
    ensures SplitAtSpace(Join(parts, ' ')) == parts
  {
    assert parts[0] in parts;
    if |parts| == 1 {
      SpacePlain(parts[0]);
    } else {
      SpaceSplitJoin(parts[1..]);
      SpaceAfter(parts[0], ' ', Join(parts[1..], ' '));
    }
  }

  ghost predicate Free(parts: seq<string>, c: char) {
    forall p :: p in parts ==> c !in p
  }

  /** What joins the fields of a line: a bar; without bars a tab; without either a comma; else white space. */
  ghost predicate Separates(sep: char, parts: seq<string>) {
    if sep == '|' then |parts| > 1 && Free(parts, '|')
    else if sep == '\t' then |parts| > 1 && Free(parts, '|') && Free(parts, '\t')
    else if sep == ',' then |parts| > 1 && Free(parts, '|') && Free(parts, '\t') && Free(parts, ',')
    else
      && sep == ' ' && Free(parts, '|') && Free(parts, '\t') && Free(parts, ',')
      && forall p :: p in parts ==> NoSpace(p)
  }

  lemma {:induction false} JoinHas(parts: seq<string>, sep: char, c: char)
    requires parts != [] && c != sep && Free(parts, c)
    ensures c !in Join(parts, sep)
  {
    if |parts| > 1 {
      JoinHas(parts[1..], sep, c);
    }
  }

  lemma FieldsComeBack(parts: seq<string>, sep: char)
    requires parts != [] && AllTight(parts) && Separates(sep, parts)
    ensures SplitFields(Join(parts, sep)) == StripAll(parts)
  {
    JoinEnds(parts, sep);
    if sep == ' ' {
      SpaceSplitJoin(parts);
    } else {
      SplitJoin(parts, sep);
    }
    if sep != '|' {
      JoinHas(parts, sep, '|');
    }
    if sep == ',' || sep == ' ' {
      JoinHas(parts, sep, '\t');
    }
    if sep == ' ' {
      JoinHas(parts, sep, ',');
    }
  }

  /** The documented formats, with any of the separators: a key; user name and key; user name, password and key; and
      these three with a date.  Anything longer fails, and so do a short key and a date that cannot be read. */
  lemma {:induction false} LineParses(lineNo: nat, parts: seq<string>, sep: char, date: DateParser)
    requires parts != [] && AllTight(parts) && Separates(sep, parts) && parts[0][0] != '#'
    ensures ParseLine(lineNo, Join(parts, sep), date)
            == var key := parts[Min(|parts| - 1, 2)];
               var username := if |parts| == 1 then None else Some(parts[0]);
               var password := if |parts| <= 2 then None else Some(parts[1]);
               var verified := if |parts| == 4 then date(parts[3]) else None;
               if |parts| > 4 || |key| < 8 || (|parts| == 4 && verified.None?) then Failed(lineNo)
               else Good(Item(lineNo, key, username, password, verified))
  {
    var line := Join(parts, sep);
    JoinEnds(parts, sep);
    StripTightens(line);
    FieldsComeBack(parts, sep);
    TightPartsStay(parts);
    assert NonEmpty(SplitFields(line)) == parts;
    StripTightens(parts[0]);
    if |parts| > 1 {
      StripTightens(parts[1]);
    }
    if |parts| > 2 {
      StripTightens(parts[2]);
    }
  }

  lemma {:induction false} StripLeftSkips(blank: string, rest: string)
    requires (forall i :: 0 <= i < |blank| ==> IsSpace(blank[i])) && (rest == "" || !IsSpace(rest[0]))
    ensures StripLeft(blank + rest) == rest
  {
    if blank == "" {
      assert blank + rest == rest;
    } else {
      assert (blank + rest)[1..] == blank[1..] + rest;
      StripLeftSkips(blank[1..], rest);
    }
  }

  lemma {:induction false} StripRightKeepsHead(s: string)
    requires s != "" && !IsSpace(s[0])
    ensures StripRight(s) != "" && StripRight(s)[0] == s[0]
  {
    if IsSpace(s[|s| - 1]) {
      StripRightKeepsHead(s[..|s| - 1]);
    }
  }

  /** Passed over are the lines of nothing but white space, and those on which the first other character is a hash. */
  lemma BlankLines(lineNo: nat, blank: string, rest: string, date: DateParser)
    requires (forall i :: 0 <= i < |blank| ==> IsSpace(blank[i])) && (rest == "" || !IsSpace(rest[0]))
    ensures ParseLine(lineNo, blank + rest, date).Blank? <==> rest == "" || rest[0] == '#'
    ensures ContentLines([blank + rest]) == if rest == "" || rest[0] == '#' then 0 else 1
  {
    StripLeftSkips(blank, rest);
    if rest != "" {
      StripRightKeepsHead(rest);
    }
    assert [blank + rest][..0] == [];
  }

  /** parse_keys_text */
  method ParseKeysText(lines: seq<string>, date: DateParser) returns (items: seq<Item>, failures: seq<nat>)
    ensures items == ItemsOf(lines, date) && failures == FailuresOf(lines, date)
  {
    items, failures := [], [];
    var i := 0;
    while i < |lines|
      invariant 0 <= i <= |lines|
      invariant items == ItemsOf(lines[..i], date) && failures == FailuresOf(lines[..i], date)
    {
      assert lines[..i + 1][..i] == lines[..i];
      match ParseLine(i + 1, lines[i], date) {
        case Blank =>
        case Good(item) => items := items + [item];
        case Failed(lineNo) => failures := failures + [lineNo];
      }
      i := i + 1;
    }
    assert lines[..i] == lines;
  }

  // ------------------------------------------------------------------- import

  /** The columns an import gives a new row and never changes afterwards. */
  datatype Settings = Settings(provider: string, planType: string, isActive: bool, maxConcurrent: int, ratePerMin: int)

  datatype Row = Row(username: Option<string>, password: Option<string>, verified: Option<real>, settings: Settings)

  /** One import: its settings, the HMAC of an API key, and the encryption of the password on a line, which depends on
      the line because every encryption draws a nonce. */
  datatype Call = Call(settings: Settings, hash: string -> string, encrypt: (string, nat) -> string)

  function Cipher(item: Item, c: Call): Option<string> {
    match item.password
    case None => None
    case Some(p) => Some(c.encrypt(p, item.lineNo))
  }

  function Fresh(item: Item, c: Call): Row {
    Row(item.username, Cipher(item, c), item.verified, c.settings)
  }

  /** An empty user name in the table counts as missing. */
  predicate NoName(u: Option<string>) {
    u.None? || u.value == ""
  }

  /** First value wins: only missing account fields are filled in. */
  function Merged(row: Row, item: Item, c: Call): Row {
    row.(username := if item.username.Some? && NoName(row.username) then item.username else row.username,
         password := if item.password.Some? && row.password.None? then Cipher(item, c) else row.password,
         verified := if item.verified.Some? && row.verified.None? then item.verified else row.verified)
  }

  /** The table, by the unique api_key_hash. */
  type Table = map<string, Row>

  function Imported(rows: Table, item: Item, c: Call): Table {
    var h := c.hash(item.apiKey);
    rows[h := if h in rows then Merged(rows[h], item, c) else Fresh(item, c)]
  }

  function ImportedAll(rows: Table, items: seq<Item>, c: Call): Table {
    if items == [] then rows
    else Imported(ImportedAll(rows, items[..|items| - 1], c), items[|items| - 1], c)
  }

  datatype Counts = Counts(created: nat, updated: nat, skipped: nat)

  function Counted(n: Counts, rows: Table, item: Item, c: Call): Counts {
    var h := c.hash(item.apiKey);
    if h !in rows then n.(created := n.created + 1)
    else if Merged(rows[h], item, c) != rows[h] then n.(updated := n.updated + 1)
    else n.(skipped := n.skipped + 1)
  }

  function CountsOf(rows: Table, items: seq<Item>, c: Call): Counts {
    if items == [] then Counts(0, 0, 0)
    else
      var n := |items| - 1;
      Counted(CountsOf(rows, items[..n], c), ImportedAll(rows, items[..n], c), items[n], c)
  }

  datatype Report = Rejected | Report(counts: Counts, failures: seq<nat>)

  /** created + updated + skipped + failed is the number of content lines. */
  lemma {:induction false} ReportAddsUp(rows: Table, lines: seq<string>, date: DateParser, c: Call)
    ensures var n := CountsOf(rows, ItemsOf(lines, date), c);
            n.created + n.updated + n.skipped + |FailuresOf(lines, date)| == ContentLines(lines)
  {
    ParsingLosesNoLine(lines, date);
    CountsAddUp(rows, ItemsOf(lines, date), c);
  }

  /** created is the number of rows the table has gained. */
  lemma {:induction false} CountsAddUp(rows: Table, items: seq<Item>, c: Call)
    ensures var n := CountsOf(rows, items, c);
            n.created + n.updated + n.skipped == |items| && n.created == |ImportedAll(rows, items, c)| - |rows|
  {
    if items != [] {
      var n := |items| - 1;
      CountsAddUp(rows, items[..n], c);
      var before, h := ImportedAll(rows, items[..n], c), c.hash(items[n].apiKey);
      OneKey(before, h, ImportedAll(rows, items, c)[h]);
    }
  }

  lemma OneKey(rows: Table, h: string, row: Row)
    ensures |rows[h := row]| == |rows| + if h in rows then 0 else 1
  {
    assert rows[h := row].Keys == rows.Keys + {h};
    assert |rows[h := row].Keys| == |rows[h := row]| && |rows.Keys| == |rows|;
  }

  // -------------------------------------------------------------- idempotence

  /** The table already holds whatever the item has to offer. */
  predicate Covers(rows: Table, item: Item, hash: string -> string) {
    var h := hash(item.apiKey);
    && h in rows
    && (item.username.Some? ==> !NoName(rows[h].username))
    && (item.password.Some? ==> rows[h].password.Some?)
    && (item.verified.Some? ==> rows[h].verified.Some?)
  }

  /** A later import takes nothing away. */
  lemma CoverStays(rows: Table, item: Item, next: Item, c: Call)
    requires Covers(rows, item, c.hash)
    ensures Covers(Imported(rows, next, c), item, c.hash)
  {
  }

  lemma {:induction false} ImportCovers(rows: Table, items: seq<Item>, c: Call)
    requires forall item :: item in items ==> Clean(item)
    ensures forall item :: item in items ==> Covers(ImportedAll(rows, items, c), item, c.hash)
  {
    if items != [] {
      var n := |items| - 1;
      var init, last := items[..n], items[n];
      assert items == init + [last] && last in items;
      ImportCovers(rows, init, c);
      forall item | item in init ensures Covers(ImportedAll(rows, items, c), item, c.hash) {
        CoverStays(ImportedAll(rows, init, c), item, last, c);
      }
    }
  }

  lemma {:induction false} CoveredImportIsNoop(rows: Table, items: seq<Item>, c: Call)
    requires forall item :: item in items ==> Covers(rows, item, c.hash)
    ensures ImportedAll(rows, items, c) == rows
    ensures CountsOf(rows, items, c) == Counts(0, 0, |items|)
  {
    if items != [] {
      var n := |items| - 1;
      CoveredImportIsNoop(rows, items[..n], c);
      assert items[n] in items;
    }
  }

  /** Importing the same text again changes no row and reports nothing created or updated, even with other settings
      and other nonces. */
  lemma {:induction false} ReimportChangesNothing(rows: Table, lines: seq<string>, date: DateParser, first: Call,
                                                  again: Call)
    requires first.hash == again.hash
    ensures var items := ItemsOf(lines, date);
            var once := ImportedAll(rows, items, first);
            && ImportedAll(once, items, again) == once
            && CountsOf(once, items, again) == Counts(0, 0, |items|)
  {
    var items := ItemsOf(lines, date);
    ItemsAreClean(lines, date);
    ImportCovers(rows, items, first);
    CoveredImportIsNoop(ImportedAll(rows, items, first), items, again);
  }

  // --------------------------------------------------------- first value wins

  datatype Field = Username | Password | Verified

  datatype Value = Text(text: string) | Time(at: real)

  /** The non-empty value of a field in the table. */
  function Stored(rows: Table, h: string, f: Field): Option<Value> {
    if h !in rows then None
    else
      match f
      case Username => if NoName(rows[h].username) then None else Some(Text(rows[h].username.value))
      case Password => if rows[h].password.None? then None else Some(Text(rows[h].password.value))
      case Verified => if rows[h].verified.None? then None else Some(Time(rows[h].verified.value))
  }

  /** What an item has to offer for the field of the row with hash `h`. */
  function Offer(item: Item, h: string, f: Field, c: Call): Option<Value> {
    if c.hash(item.apiKey) != h then None
    else
      match f
      case Username => if NoName(item.username) then None else Some(Text(item.username.value))
      case Password => if item.password.None? then None else Some(Text(c.encrypt(item.password.value, item.lineNo)))
      case Verified => if item.verified.None? then None else Some(Time(item.verified.value))
  }

  /** `i` is the first item with something to offer. */
  ghost predicate FirstOffer(items: seq<Item>, i: int, h: string, f: Field, c: Call) {
    && 0 <= i < |items| && Offer(items[i], h, f, c).Some?
    && forall j :: 0 <= j < i ==> Offer(items[j], h, f, c).None?
  }

  ghost predicate NoOffer(items: seq<Item>, h: string, f: Field, c: Call) {
    forall j :: 0 <= j < |items| ==> Offer(items[j], h, f, c).None?
  }

  lemma OneImportFills(rows: Table, item: Item, h: string, f: Field, c: Call)
    requires Clean(item)
    ensures Stored(Imported(rows, item, c), h, f)
            == if Stored(rows, h, f).Some? then Stored(rows, h, f) else Offer(item, h, f, c)
  {
  }

  /** Each account field ends with its first non-empty value: the one already in the table, else the one on the first
      line of that API key that has one, else none. */
  lemma {:induction false} FirstValueWins(rows: Table, items: seq<Item>, h: string, f: Field, c: Call)
    requires forall item :: item in items ==> Clean(item)
    ensures var final := Stored(ImportedAll(rows, items, c), h, f);
            && (Stored(rows, h, f).Some? ==> final == Stored(rows, h, f))
            && (Stored(rows, h, f).None? ==>
                  && (forall i :: FirstOffer(items, i, h, f, c) ==> final == Offer(items[i], h, f, c))
                  && (NoOffer(items, h, f, c) ==> final == None))
  {
    if items != [] {
      var n := |items| - 1;
      var init, last := items[..n], items[n];
      assert last in items;
      FirstValueWins(rows, init, h, f, c);
      OneImportFills(ImportedAll(rows, init, c), last, h, f, c);
      FirstOfInit(items, h, f, c);
      FirstOrNone(init, h, f, c);
    }
  }

  lemma {:induction false} FirstOrNone(items: seq<Item>, h: string, f: Field, c: Call)
    ensures NoOffer(items, h, f, c) || exists i :: FirstOffer(items, i, h, f, c)
  {
    if items != [] {
      var n := |items| - 1;
      FirstOrNone(items[..n], h, f, c);
      FirstOfInit(items, h, f, c);
      if i :| FirstOffer(items[..n], i, h, f, c) {
        assert FirstOffer(items, i, h, f, c);
      } else if Offer(items[n], h, f, c).Some? {
        assert FirstOffer(items, n, h, f, c);
      }
    }
  }

  lemma FirstOfInit(items: seq<Item>, h: string, f: Field, c: Call)
    requires items != []
    ensures var n := |items| - 1;
            && (forall i :: FirstOffer(items, i, h, f, c) <==>
                  FirstOffer(items[..n], i, h, f, c)
                  || (i == n && NoOffer(items[..n], h, f, c) && Offer(items[n], h, f, c).Some?))
            && (NoOffer(items, h, f, c) <==> NoOffer(items[..n], h, f, c) && Offer(items[n], h, f, c).None?)
  {
    var n := |items| - 1;
    var init := items[..n];
    assert forall j :: 0 <= j < n ==> init[j] == items[j];
  }

  /** No other column of an existing row changes, rows of other keys do not change, and a new row has the settings
      of the import. */
  lemma {:induction false} OtherColumnsStay(rows: Table, items: seq<Item>, h: string, c: Call)
    ensures var done := ImportedAll(rows, items, c);
            && (h in done <==> h in rows || exists item :: item in items && c.hash(item.apiKey) == h)
            && (h in rows ==> done[h].settings == rows[h].settings)
            && (h in done && h !in rows ==> done[h].settings == c.settings)
            && (h in rows && (forall item :: item in items ==> c.hash(item.apiKey) != h) ==> done[h] == rows[h])
  {
    if items != [] {
      var n := |items| - 1;
      OtherColumnsStay(rows, items[..n], h, c);
      assert items == items[..n] + [items[n]];
      assert forall item :: item in items <==> item in items[..n] || item == items[n];
    }
  }

  class KeyTable {
    var rows: Table

    constructor (rows: Table)
      ensures this.rows == rows
    {
      this.rows := rows;
    }

    /** The INSERT, or the fill-in of the row whose hash it collides with. */
    method ImportItem(item: Item, c: Call, n: Counts) returns (n': Counts)
      requires Clean(item)
      modifies this
      ensures rows == Imported(old(rows), item, c) && n' == Counted(n, old(rows), item, c)
      ensures n'.created == n.created + (if c.hash(item.apiKey) !in old(rows) then 1 else 0)
      ensures n'.updated == n.updated + (if c.hash(item.apiKey) in old(rows) && rows != old(rows) then 1 else 0)
      ensures n'.skipped == n.skipped + (if rows == old(rows) then 1 else 0)
    {
      var h := c.hash(item.apiKey);
      var cipher := Cipher(item, c);
      if h !in rows {
        rows := rows[h := Row(item.username, cipher, item.verified, c.settings)];
        return n.(created := n.created + 1);
      }
      var existing, changed := rows[h], false;
      if item.username.Some? && NoName(existing.username) {
        existing, changed := existing.(username := item.username), true;
      }
      if cipher.Some? && existing.password.None? {
        existing, changed := existing.(password := cipher), true;
      }
      if item.verified.Some? && existing.verified.None? {
        existing, changed := existing.(verified := item.verified), true;
      }
      rows := rows[h := existing];
      n' := if changed then n.(updated := n.updated + 1) else n.(skipped := n.skipped + 1);
    }

    /** import_keys_text */
    method ImportKeysText(lines: seq<string>, date: DateParser, c: Call) returns (report: Report)
      modifies this
      ensures var items, failures := ItemsOf(lines, date), FailuresOf(lines, date);
              if items == [] && failures != [] then report == Rejected && rows == old(rows)
              else report == Report(CountsOf(old(rows), items, c), failures) && rows == ImportedAll(old(rows), items, c)
    {
      ghost var was := rows;
      var items, failures := ParseKeysText(lines, date);
      if items == [] && failures != [] {
        return Rejected;
      }
      ItemsAreClean(lines, date);
      var n, i := Counts(0, 0, 0), 0;
      while i < |items|
        invariant 0 <= i <= |items|
        invariant rows == ImportedAll(was, items[..i], c) && n == CountsOf(was, items[..i], c)
      {
        assert items[..i + 1][..i] == items[..i] && items[i] in items;
        n := ImportItem(items[i], c, n);
        i := i + 1;
      }
      assert items[..i] == items;
      report := Report(n, failures);
    }
  }
}
