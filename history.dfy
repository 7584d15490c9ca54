/** The suggestion history log: a list of events kept in browser storage,
    newest first and capped at 1000 entries, with filtering by action and a
    CSV export. The storage slot is a field; the clock and the random id
    suffix are supplied by the caller. */
module History {
  import opened Wrappers
  import opened Text
  import opened Lists

  datatype Action = Suggested | Sent | Copied | Opened

  /** The action as it is stored and exported. */
  function ActionName(a: Action): string {
    match a
    case Suggested => "suggested"
    case Sent => "sent"
    case Copied => "copied"
    case Opened => "opened"
  }

  datatype Filter = All | Only(action: Action)

  datatype HistoryEvent = HistoryEvent(
    id: string,
    time: string,
    ts: int,
    verse: string,
    text: string,
    translation: string,
    confidence: Option<real>,
    action: Action)

  /** What a caller of `addEvent` supplies: an event without id, time and ts. */
  datatype NewEvent = NewEvent(
    verse: string,
    text: string,
    translation: string,
    confidence: Option<real>,
    action: Action)

  /** What the storage key can hold: nothing, the empty string, text that is
      not JSON, JSON that is not an array, or a stored event array. */
  datatype Slot = Unset | EmptyText | Malformed | NotAnArray | Events(items: seq<HistoryEvent>)

  /** The events the storage key holds: every slot that is not an event array
      reads as no events. */
  function Read(slot: Slot): (r: seq<HistoryEvent>)
    ensures r != [] ==> slot == Events(r)
  {
    match slot
    case Events(items) => items
    case _ => []
  }

  const MAX_EVENTS: nat := 1000

  /** The event id: the timestamp in decimal, a dash, then the random suffix. */
  function NewId(ts: int, suffix: string): string {
    IntToString(ts) + "-" + suffix
  }

  /** For a non-negative timestamp the id is the decimal timestamp, a dash and
      the suffix, and its leading digits read back as the timestamp. */
  lemma NewIdTimestamp(ts: nat, suffix: string)
    ensures var id := NewId(ts, suffix); var n := |NatToString(ts)|;
      && n < |id| && id[n] == '-' && id[n + 1..] == suffix
      && (forall i :: 0 <= i < n ==> IsDigit(id[i]))
      && DigitsValue(id[..n]) == ts
  {
    var id := NewId(ts, suffix);
    var n := |NatToString(ts)|;
    assert id[..n] == NatToString(ts);
    DigitsValueOfNatToString(ts);
  }

  /** The event built by `addEvent`: the caller's fields plus id, time and ts. */
  function Stamp(e: NewEvent, ts: int, time: string, suffix: string): (r: HistoryEvent)
    ensures r.id == NewId(ts, suffix) && r.time == time && r.ts == ts
    ensures NewEvent(r.verse, r.text, r.translation, r.confidence, r.action) == e
  {
    HistoryEvent(NewId(ts, suffix), time, ts, e.verse, e.text, e.translation, e.confidence, e.action)
  }

  /** The list stored by `addEvent`: the new event first, then the previous
      events in their old order, cut to `MAX_EVENTS`. */
  function Pushed(items: seq<HistoryEvent>, item: HistoryEvent): (r: seq<HistoryEvent>)
    ensures |r| == if |items| < MAX_EVENTS then |items| + 1 else MAX_EVENTS
    ensures r[0] == item && r[1..] <= items
  {
    SliceTo([item] + items, MAX_EVENTS)
  }

  /** The events with action `a`, in stored order. */
  function Keep(items: seq<HistoryEvent>, a: Action): seq<HistoryEvent> {
    if items == [] then []
    else (if items[0].action == a then [items[0]] else []) + Keep(items[1..], a)
  }

  /** `Keep` is exactly the filter: an ordered subsequence holding every event
      with the action as often as the list does, and no other event. */
  lemma KeepSpec(items: seq<HistoryEvent>, a: Action)
    ensures var r := Keep(items, a);
      && IsSubsequence(r, items)
      && (forall i :: 0 <= i < |r| ==> r[i].action == a)
      && forall e :: multiset(r)[e] == if e.action == a then multiset(items)[e] else 0
  {
    KeepOrdered(items, a);
    KeepCounts(items, a);
  }

  lemma {:induction false} KeepOrdered(items: seq<HistoryEvent>, a: Action)
    ensures IsSubsequence(Keep(items, a), items)
    ensures forall i :: 0 <= i < |Keep(items, a)| ==> Keep(items, a)[i].action == a
  {
    if items != [] {
      var r := Keep(items, a);
      var rest := Keep(items[1..], a);
      KeepOrdered(items[1..], a);
      if items[0].action == a {
        assert r == [items[0]] + rest;
        assert r[0] == items[0] && r[1..] == rest;
      } else {
        assert r == rest;
        SubsequenceCons(r, items);
      }
    }
  }

  lemma {:induction false} KeepCounts(items: seq<HistoryEvent>, a: Action)
    ensures forall e :: multiset(Keep(items, a))[e] == if e.action == a then multiset(items)[e] else 0
  {
    if items != [] {
      var head := if items[0].action == a then [items[0]] else [];
      KeepCounts(items[1..], a);
      assert multiset(items) == multiset([items[0]]) + multiset(items[1..]) by {
        assert items == [items[0]] + items[1..];
      }
      assert multiset(Keep(items, a)) == multiset(head) + multiset(Keep(items[1..], a));
    }
  }

  /** Filtering a prefix gives a prefix of the filtered list. */
  lemma {:induction false} KeepPrefix(items: seq<HistoryEvent>, n: nat, a: Action)
    requires n <= |items|
    ensures Keep(items[..n], a) <= Keep(items, a)
  {
    if n > 0 {
      assert items[..n][1..] == items[1..][..n - 1];
      KeepPrefix(items[1..], n - 1, a);
    }
  }

  /** After a push the new event heads the view of its own action, and the
      view of every action loses at most its oldest entries. */
  lemma PushedViews(items: seq<HistoryEvent>, item: HistoryEvent, a: Action)
    ensures var v := Keep(Pushed(items, item), a);
      && (a == item.action ==> v != [] && v[0] == item && v[1..] <= Keep(items, a))
      && (a != item.action ==> v <= Keep(items, a))
  {
    var p := Pushed(items, item);
    assert p == [item] + p[1..];
    assert p[1..] == items[..|p| - 1];
    KeepPrefix(items, |p| - 1, a);
  }

  /** `getHistory(filter)` over a list of events. */
  function Select(items: seq<HistoryEvent>, filter: Filter): seq<HistoryEvent> {
    match filter
    case All => items
    case Only(a) => Keep(items, a)
  }

  // ---------------------------------------------------------------------
  // CSV export
  // ---------------------------------------------------------------------

  const HEADER: seq<string> :=
    ["id", "timestamp", "time", "action", "verse", "translation", "confidence", "text"]

  /** Every double quote of `s` doubled. */
  function Escape(s: string): (r: string)
    ensures |r| >= |s|
  {
    if s == [] then []
    else (if s[0] == '"' then "\"\"" else [s[0]]) + Escape(s[1..])
  }

  lemma {:induction false} EscapePlain(s: string)
    requires '"' !in s
    ensures Escape(s) == s
  {
    if s != [] {
      assert s == [s[0]] + s[1..];
      EscapePlain(s[1..]);
    }
  }

  /** The confidence field: the number's text, or empty when absent. */
  function Confidence(e: HistoryEvent, num: real -> string): string {
    match e.confidence
    case Some(c) => num(c)
    case None => ""
  }

  /** The eight values of an event's row, before escaping. `iso` renders a
      timestamp as `toISOString` does, `num` a confidence as `String` does. */
  function Fields(e: HistoryEvent, iso: int -> string, num: real -> string): seq<string> {
    [e.id, iso(e.ts), e.time, ActionName(e.action), e.verse, e.translation, Confidence(e, num), e.text]
  }

  /** The row's cells as exported: only the verse and the text are escaped. */
  function Cells(e: HistoryEvent, iso: int -> string, num: real -> string): seq<string> {
    [e.id, iso(e.ts), e.time, ActionName(e.action), Escape(e.verse), e.translation, Confidence(e, num),
     Escape(e.text)]
  }

  function Quote(v: string): string { "\"" + v + "\"" }

  function QuoteAll(vs: seq<string>): (r: seq<string>)
    ensures |r| == |vs| && forall i :: 0 <= i < |vs| ==> r[i] == Quote(vs[i])
  {
    if vs == [] then [] else [Quote(vs[0])] + QuoteAll(vs[1..])
  }

  function RowLine(e: HistoryEvent, iso: int -> string, num: real -> string): string {
    Join(QuoteAll(Cells(e, iso, num)), ",")
  }

  function RowLines(items: seq<HistoryEvent>, iso: int -> string, num: real -> string): (r: seq<string>)
    ensures |r| == |items| && forall i :: 0 <= i < |items| ==> r[i] == RowLine(items[i], iso, num)
  {
    if items == [] then [] else [RowLine(items[0], iso, num)] + RowLines(items[1..], iso, num)
  }

  /** `exportToCSV()` over a list of events: the unquoted header line, a
      newline, then one quoted row per event separated by newlines. */
  function ExportCsv(items: seq<HistoryEvent>, iso: int -> string, num: real -> string): string {
    Join(HEADER, ",") + "\n" + Join(RowLines(items, iso, num), "\n")
  }

  /** The unescaped fields of an event contain no double quote. */
  predicate Plain(e: HistoryEvent, iso: int -> string, num: real -> string) {
    '"' !in e.id && '"' !in iso(e.ts) && '"' !in e.time && '"' !in e.translation && '"' !in Confidence(e, num)
  }

  /** The fields of every event, one row per event. */
  function Table(items: seq<HistoryEvent>, iso: int -> string, num: real -> string): (r: seq<seq<string>>)
    ensures |r| == |items| && forall i :: 0 <= i < |items| ==> r[i] == Fields(items[i], iso, num)
  {
    if items == [] then [] else [Fields(items[0], iso, num)] + Table(items[1..], iso, num)
  }

  // ---------------------------------------------------------------------
  // A reference CSV reader
  // ---------------------------------------------------------------------

  /** Reads the body of a quoted field, `s` starting just after the opening
      quote: `""` stands for one quote and a lone quote closes the field.
      Gives the field's value and what follows the closing quote. */
  function ScanQuoted(s: string): (r: Option<(string, string)>)
    ensures r.Some? ==> |r.value.1| < |s|
    decreases |s|
  {
    if s == [] then None
    else if s[0] == '"' then
      if |s| >= 2 && s[1] == '"' then
        match ScanQuoted(s[2..])
        case None => None
        case Some((v, rest)) => Some(("\"" + v, rest))
      else Some(([], s[1..]))
    else
      match ScanQuoted(s[1..])
      case None => None
      case Some((v, rest)) => Some(([s[0]] + v, rest))
  }

  /** Reads comma-separated quoted fields up to the end of a line. */
  function ParseFields(s: string): (r: Option<(seq<string>, string)>)
    ensures r.Some? ==> |r.value.1| < |s|
    decreases |s|
  {
    if s == [] || s[0] != '"' then None
    else
      match ScanQuoted(s[1..])
      case None => None
      case Some((v, rest)) =>
        if rest != [] && rest[0] == ',' then
          match ParseFields(rest[1..])
          case None => None
          case Some((vs, rest')) => Some(([v] + vs, rest'))
        else Some(([v], rest))
  }

  /** Reads newline-separated rows of quoted fields. */
  function ParseRows(s: string): Option<seq<seq<string>>>
    decreases |s|
  {
    match ParseFields(s)
    case None => None
    case Some((fs, rest)) =>
      if rest == [] then Some([fs])
      else if rest[0] == '\n' then
        match ParseRows(rest[1..])
        case None => None
        case Some(rows) => Some([fs] + rows)
      else None
  }

  /** Reads a whole export: the header line split at commas, then the rows. */
  function ParseCsv(s: string): Option<(seq<string>, seq<seq<string>>)> {
    var k := LineEnd(s);
    if k == |s| then None
    else if s[k + 1..] == [] then Some((Split(s[..k], ','), []))
    else
      match ParseRows(s[k + 1..])
      case None => None
      case Some(rows) => Some((Split(s[..k], ','), rows))
  }

  lemma {:induction false} ScanEscaped(v: string, rest: string)
    requires rest == [] || rest[0] != '"'
    ensures ScanQuoted(Escape(v) + "\"" + rest) == Some((v, rest))
    decreases |v|
  {
    if v == [] {
      assert Escape(v) + "\"" + rest == "\"" + rest;
      ScanClose(rest);
    } else {
      var c, w := v[0], v[1..];
      var x := Escape(w) + "\"" + rest;
      ScanEscaped(w, rest);
      var head := if c == '"' then "\"\"" else [c];
      assert Escape(v) + "\"" + rest == head + x by {
        assert v == [c] + w;
        EscapeCons(c, w);
        Regroup(head, Escape(w), "\"", rest);
      }
      if c == '"' {
        ScanPair(x, w, rest);
      } else {
        ScanChar(c, x, w, rest);
      }
      assert [c] + w == v;
    }
  }

  lemma EscapeCons(c: char, w: string)
    ensures Escape([c] + w) == (if c == '"' then "\"\"" else [c]) + Escape(w)
  {
    assert ([c] + w)[1..] == w;
  }

  lemma Regroup(a: string, b: string, c: string, d: string)
    ensures (a + b) + c + d == a + (b + c + d)
  {
  }

  lemma ScanClose(rest: string)
    requires rest == [] || rest[0] != '"'
    ensures ScanQuoted("\"" + rest) == Some(([], rest))
  {
    assert ("\"" + rest)[1..] == rest;
  }

  lemma ScanPair(x: string, v: string, rest: string)
    requires ScanQuoted(x) == Some((v, rest))
    ensures ScanQuoted("\"\"" + x) == Some(("\"" + v, rest))
  {
    assert ("\"\"" + x)[2..] == x;
  }

  lemma ScanChar(c: char, x: string, v: string, rest: string)
    requires c != '"' && ScanQuoted(x) == Some((v, rest))
    ensures ScanQuoted([c] + x) == Some(([c] + v, rest))
  {
    assert ([c] + x)[1..] == x;
  }

  lemma FieldLast(f: string, rest: string)
    requires rest == [] || rest[0] == '\n'
    ensures ParseFields(Quote(Escape(f)) + rest) == Some(([f], rest))
  {
    var s := Quote(Escape(f)) + rest;
    var y := Escape(f) + "\"" + rest;
    assert s == "\"" + y by { Regroup("\"", Escape(f), "\"", rest); }
    assert s[0] == '"' && s[1..] == y;
    ScanEscaped(f, rest);
  }

  lemma FieldNext(f: string, t: string)
    ensures ParseFields(Quote(Escape(f)) + "," + t) ==
      match ParseFields(t)
      case None => None
      case Some((vs, rest)) => Some(([f] + vs, rest))
  {
    var s := Quote(Escape(f)) + "," + t;
    var y := Escape(f) + "\"" + ("," + t);
    assert s == "\"" + y by {
      Assoc(Quote(Escape(f)), ",", t);
      Regroup("\"", Escape(f), "\"", "," + t);
    }
    assert s[0] == '"' && s[1..] == y;
    ScanEscaped(f, "," + t);
    assert ("," + t)[1..] == t;
    match ParseFields(t)
    case None =>
    case Some((vs, rest)) =>
  }

  lemma Assoc(a: string, b: string, c: string)
    ensures (a + b) + c == a + (b + c)
  {
  }

  /** Quoting the escaped cells and joining them with commas reads back as
      the original values. */
  lemma {:induction false} ParseJoined(fs: seq<string>, cells: seq<string>, rest: string)
    requires |fs| == |cells| > 0
    requires forall i :: 0 <= i < |fs| ==> cells[i] == Escape(fs[i])
    requires rest == [] || rest[0] == '\n'
    ensures ParseFields(Join(QuoteAll(cells), ",") + rest) == Some((fs, rest))
  {
    var q := QuoteAll(cells);
    if |fs| == 1 {
      assert Join(q, ",") == Quote(Escape(fs[0]));
      FieldLast(fs[0], rest);
      assert [fs[0]] == fs;
    } else {
      var j := Join(QuoteAll(cells[1..]), ",");
      assert q[1..] == QuoteAll(cells[1..]);
      assert Join(q, ",") + rest == Quote(Escape(fs[0])) + "," + (j + rest);
      FieldNext(fs[0], j + rest);
      ParseJoined(fs[1..], cells[1..], rest);
      assert [fs[0]] + fs[1..] == fs;
    }
  }

  lemma RowParses(e: HistoryEvent, iso: int -> string, num: real -> string, rest: string)
    requires Plain(e, iso, num)
    requires rest == [] || rest[0] == '\n'
    ensures ParseFields(RowLine(e, iso, num) + rest) == Some((Fields(e, iso, num), rest))
  {
    var fs := Fields(e, iso, num);
    var cells := Cells(e, iso, num);
    forall i | 0 <= i < |fs| ensures cells[i] == Escape(fs[i]) {
      if i == 0 { EscapePlain(e.id); }
      else if i == 1 { EscapePlain(iso(e.ts)); }
      else if i == 2 { EscapePlain(e.time); }
      else if i == 3 { EscapePlain(ActionName(e.action)); }
      else if i == 5 { EscapePlain(e.translation); }
      else if i == 6 { EscapePlain(Confidence(e, num)); }
    }
    ParseJoined(fs, cells, rest);
  }

  lemma {:induction false} RowsParse(items: seq<HistoryEvent>, iso: int -> string, num: real -> string)
    requires items != []
    requires forall i :: 0 <= i < |items| ==> Plain(items[i], iso, num)
    ensures ParseRows(Join(RowLines(items, iso, num), "\n")) == Some(Table(items, iso, num))
  {
    var lines := RowLines(items, iso, num);
    if |items| == 1 {
      RowParses(items[0], iso, num, []);
      assert lines[0] + [] == lines[0];
      assert [Fields(items[0], iso, num)] == Table(items, iso, num);
    } else {
      var j := Join(RowLines(items[1..], iso, num), "\n");
      assert lines[1..] == RowLines(items[1..], iso, num);
      assert Join(lines, "\n") == lines[0] + ("\n" + j);
      RowParses(items[0], iso, num, "\n" + j);
      RowsParse(items[1..], iso, num);
      assert ("\n" + j)[1..] == j;
      assert [Fields(items[0], iso, num)] + Table(items[1..], iso, num) == Table(items, iso, num);
    }
  }

  lemma HeaderPlain()
    ensures forall i :: 0 <= i < |HEADER| ==> '\n' !in HEADER[i] && ',' !in HEADER[i]
  {
  }

  lemma HeaderNoNewline()
    ensures '\n' !in Join(HEADER, ",")
  {
    HeaderPlain();
    JoinAvoids(HEADER, ",", '\n');
  }

  lemma HeaderSplits()
    ensures Split(Join(HEADER, ","), ',') == HEADER
  {
    HeaderPlain();
    SplitJoin(HEADER, ',');
  }

  lemma ParseCsvOf(h: string, body: string)
    requires '\n' !in h
    ensures ParseCsv(h + "\n" + body) ==
      if body == [] then Some((Split(h, ','), []))
      else match ParseRows(body)
        case None => None
        case Some(rows) => Some((Split(h, ','), rows))
  {
    var s := h + "\n" + body;
    LineEndAt(h, body);
    assert s[..|h|] == h;
    assert s[|h| + 1..] == body;
  }

  /** Reading an export back gives the header, then exactly one row per event
      holding its field values in stored order, with the verse and the text
      unescaped, provided the fields left unescaped contain no quote. */
  lemma ExportRoundTrip(items: seq<HistoryEvent>, iso: int -> string, num: real -> string)
    requires forall i :: 0 <= i < |items| ==> Plain(items[i], iso, num)
    ensures ParseCsv(ExportCsv(items, iso, num)) == Some((HEADER, Table(items, iso, num)))
  {
    var body := Join(RowLines(items, iso, num), "\n");
    HeaderNoNewline();
    HeaderSplits();
    ParseCsvOf(Join(HEADER, ","), body);
    if items != [] {
      RowsParse(items, iso, num);
      assert body[0] == '"';
    } else {
      assert body == [];
    }
  }

  // ---------------------------------------------------------------------
  // The store
  // ---------------------------------------------------------------------

  class HistoryStore {
    /** The storage key's current value. */
    var slot: Slot

    constructor(initial: Slot)
      ensures slot == initial
    {
      slot := initial;
    }

    /** The events `read()` returns. */
    function Stored(): seq<HistoryEvent>
      reads this
    {
      Read(slot)
    }

    /** Writes the events: when the storage refuses the write (`accepted` is
        false, a quota error) nothing changes; otherwise the events read
        back as written. */
    method Write(items: seq<HistoryEvent>, accepted: bool)
      modifies this
      ensures slot == if accepted then Events(items) else old(slot)
      ensures accepted ==> Stored() == items
    {
      if accepted {
        slot := Events(items);
      }
    }

    /** `addEvent(e)` at time `ts`/`time` with random id suffix `suffix`. */
    method AddEvent(e: NewEvent, ts: int, time: string, suffix: string, accepted: bool)
      returns (item: HistoryEvent)
      modifies this
      ensures item == Stamp(e, ts, time, suffix)
      ensures slot == if accepted then Events(Pushed(old(Stored()), item)) else old(slot)
      ensures accepted ==> && |Stored()| <= MAX_EVENTS && Stored()[0] == item
                           && Stored()[1..] <= old(Stored())
    {
      item := Stamp(e, ts, time, suffix);
      var items := Stored();
      items := [item] + items;
      Write(SliceTo(items, MAX_EVENTS), accepted);
    }

    /** `getHistory(filter)`: everything for `All`, otherwise exactly the
        events with that action, in stored order. */
    function GetHistory(filter: Filter): (r: seq<HistoryEvent>)
      reads this
      ensures filter == All ==> r == Stored()
      ensures filter.Only? ==>
        && IsSubsequence(r, Stored())
        && (forall i :: 0 <= i < |r| ==> r[i].action == filter.action)
        && forall e :: multiset(r)[e] == if e.action == filter.action then multiset(Stored())[e] else 0
    {
      if filter.Only? then KeepSpec(Stored(), filter.action); Select(Stored(), filter)
      else Select(Stored(), filter)
    }

    /** `clear()`: once written, every view of the history is empty. */
    method Clear(accepted: bool)
      modifies this
      ensures slot == if accepted then Events([]) else old(slot)
      ensures accepted ==> forall f :: GetHistory(f) == []
    {
      Write([], accepted);
    }

    /** `exportToCSV()`; reading the text back gives the header and one row
        of field values per stored event. */
    function ExportToCSV(iso: int -> string, num: real -> string): (r: string)
      reads this
      ensures (forall i :: 0 <= i < |Stored()| ==> Plain(Stored()[i], iso, num)) ==>
        ParseCsv(r) == Some((HEADER, Table(Stored(), iso, num)))
    {
      if forall i :: 0 <= i < |Stored()| ==> Plain(Stored()[i], iso, num) then
        ExportRoundTrip(Stored(), iso, num);
        ExportCsv(Stored(), iso, num)
      else ExportCsv(Stored(), iso, num)
    }
  }
}
