/**
 Collecting log lines into the database: rows and read position commit together, the in-memory position is lost in
 a crash, and any step may fail.
 */
module Collecting {
  import opened Collections
  import opened Tailing

  const MAX_READ_BYTES := 4 * 1024 * 1024
  const MAX_FILE_SIZE := 16 * 1024 * 1024
  const API_INBOUND_TAG := "api"

  datatype Entry = Entry(inbound: string, detail: string)

  /** Recognising a line is a parser's; it is never given an empty line that it would accept. */
  type Parser = string -> Option<Entry>

  ghost predicate Strict(parse: Parser) {
    parse("") == None
  }

  function RowOf(parse: Parser, line: string): seq<Entry> {
    match parse(line)
    case Some(e) => if e.inbound == API_INBOUND_TAG then [] else [e]
    case None => []
  }

  /** The accepted lines: recognised, and not of the control inbound. */
  function RowsOf(parse: Parser, lines: seq<string>): seq<Entry> {
    if lines == [] then [] else RowsOf(parse, lines[..|lines| - 1]) + RowOf(parse, lines[|lines| - 1])
  }

  datatype Cursor = Cursor(offset: nat, head: string)

  /**
   The log file, the running process's position and whether it has resumed, the database's rows and position. For
   the statement only: what was stored of the files truncated so far, and how much of the present one.
   */
  datatype World = World(
    file: Option<string>, offset: nat, resumed: bool, rows: seq<Entry>, cursor: Option<Cursor>,
    past: seq<string>, mark: nat)

  /** Which steps of a collection fail; crash is a process that dies after the transaction. */
  datatype Faults = Faults(resume: bool, peek: bool, head: bool, store: bool, crash: bool, truncate: bool)

  function Text(file: Option<string>): string {
    match file
    case None => ""
    case Some(text) => text
  }

  function Appended(file: Option<string>, text: string): Option<string> {
    if text == "" then file else Some(Text(file) + text)
  }

  function AfterResume(w: World): World {
    if w.resumed then w
    else if w.cursor.Some? && Resumable(w.file, w.cursor.value.offset, w.cursor.value.head)
    then w.(resumed := true, offset := w.cursor.value.offset)
    else w.(resumed := true)
  }

  /** A file shorter than the position is read from its start. */
  function ReadFrom(w: World): nat {
    if w.file.Some? && |w.file.value| < w.offset then 0 else w.offset
  }

  function Peeked(w: World): Chunk {
    var from := ReadFrom(w);
    if w.file.None? then Chunk([], from) else PeekAt(w.file.value, from, MAX_READ_BYTES)
  }

  function AfterStore(w: World, parse: Parser, c: Chunk): World {
    w.(rows := w.rows + RowsOf(parse, c.lines), cursor := Some(Cursor(c.next, HeadOf(w.file))), mark := c.next)
  }

  /** A collection either goes on to its last step or ends early. */
  datatype Stage = Go(w: World) | Stop(w: World)

  /** Reading and storing, while the core may append more text. */
  function Consumed(w: World, parse: Parser, f: Faults, late: string): Stage {
    if f.peek then Stop(w.(file := Appended(w.file, late)))
    else
      var c := Peeked(w);
      var seen := w.(offset := ReadFrom(w), file := Appended(w.file, late));
      if c.next == seen.offset then Go(seen)
      else if f.head || f.store then Stop(seen)
      else
        var stored := AfterStore(seen, parse, c);
        if f.crash then Stop(stored.(offset := 0, resumed := false)) else Go(stored.(offset := c.next))
  }

  function AfterTruncate(w: World): World {
    if w.file.Some? && |w.file.value| > MAX_FILE_SIZE
    then w.(file := Some(""), offset := 0, past := w.past + [if w.mark <= |w.file.value| then w.file.value[..w.mark] else ""], mark := 0)
    else w
  }

  function AfterCollect(w: World, parse: Parser, f: Faults, late: string): World {
    if !w.resumed && f.resume then w.(file := Appended(w.file, late))
    else
      match Consumed(AfterResume(w), parse, f, late)
      case Stop(r) => r
      case Go(r) => if f.truncate then r else AfterTruncate(r)
  }

  /** What is looked at before a collection: the logging switch, which may be unreadable, and the free disk space. */
  datatype Gate = SwitchUnread | SwitchedOff | DiskFull | Open

  class AccessLogService {
    const tailer: Tailer
    var resumed: bool
    var file: Option<string>
    var rows: seq<Entry>
    var cursor: Option<Cursor>
    ghost var past: seq<string>
    ghost var mark: nat

    ghost function Contents(): World
      reads this, tailer
    {
      World(file, tailer.offset, resumed, rows, cursor, past, mark)
    }

    constructor ()
      ensures Contents() == Start() && fresh(tailer)
    {
      tailer := new Tailer();
      resumed, file, rows, cursor := false, None, [], None;
      past, mark := [], 0;
    }

    /** One transaction: all rows and the position, or nothing. */
    method StoreWithCursor(entries: seq<Entry>, c: Cursor, fails: bool) returns (ok: bool)
      modifies this`rows, this`cursor
      ensures ok == !fails
      ensures if ok then rows == old(rows) + entries && cursor == Some(c) else rows == old(rows) && cursor == old(cursor)
    {
      if fails {
        return false;
      }
      rows := rows + entries;
      cursor := Some(c);
      return true;
    }

    method ResumeTailer(fails: bool) returns (ok: bool)
      modifies tailer
      ensures ok == !fails
      ensures tailer.offset == if ok && cursor.Some? && Resumable(file, cursor.value.offset, cursor.value.head)
                               then cursor.value.offset else old(tailer.offset)
    {
      if fails {
        return false;
      }
      if cursor.Some? {
        var same := tailer.Resume(file, cursor.value.offset, cursor.value.head);
      }
      return true;
    }

    method Accept(parse: Parser, lines: seq<string>) returns (entries: seq<Entry>)
      ensures entries == RowsOf(parse, lines)
    {
      entries := [];
      for i := 0 to |lines|
        invariant entries == RowsOf(parse, lines[..i])
      {
        assert lines[..i + 1][..i] == lines[..i];
        var e := parse(lines[i]);
        if e.None? || e.value.inbound == API_INBOUND_TAG {
          continue;
        }
        entries := entries + [e.value];
      }
      assert lines[..|lines|] == lines;
    }

    method Consume(parse: Parser, f: Faults, late: string) returns (go: bool)
      modifies this, tailer
      ensures (if go then Go(Contents()) else Stop(Contents())) == Consumed(old(Contents()), parse, f, late)
    {
      hide PeekAt, HeadOf, RowsOf, Appended;
      if f.peek {
        file := Appended(file, late);
        return false;
      }
      var lines, next := tailer.Peek(file, MAX_READ_BYTES);
      file := Appended(file, late);
      if next != tailer.offset {
        var entries := Accept(parse, lines);
        if f.head {
          return false;
        }
        var head := tailer.Head(file);
        var ok := StoreWithCursor(entries, Cursor(next, head), f.store);
        if !ok {
          return false;
        }
        mark := next;
        if f.crash {
          Restart();
          return false;
        }
        tailer.Commit(next);
      }
      return true;
    }

    method Truncate()
      modifies this`file, this`past, this`mark, tailer
      ensures Contents() == AfterTruncate(old(Contents()))
    {
      ghost var full := file;
      file := tailer.TruncateIfLargerThan(file, MAX_FILE_SIZE);
      if full.Some? && |full.value| > MAX_FILE_SIZE {
        past, mark := past + [if mark <= |full.value| then full.value[..mark] else ""], 0;
      }
    }

    /**
     The steps in the source's order; the flags say which of them fail and late what is appended meanwhile. Behind a
     closed gate nothing is read, stored or truncated.
     */
    method Collect(parse: Parser, gate: Gate, f: Faults, late: string) returns (ok: bool)
      modifies this, tailer
      ensures Contents() ==
        if gate == Open then AfterCollect(old(Contents()), parse, f, late) else Step(old(Contents()), parse, Append(late))
      ensures gate != Open ==> ok == (gate != SwitchUnread)
    {
      hide Resumable, Consumed, AfterTruncate;
      if gate != Open {
        file := Appended(file, late);
        return gate != SwitchUnread;
      }
      if !resumed {
        ok := ResumeTailer(f.resume);
        if !ok {
          file := Appended(file, late);
          return;
        }
        resumed := true;
      }
      ok := Consume(parse, f, late);
      if !ok {
        return;
      }
      if f.truncate {
        return false;
      }
      Truncate();
      return true;
    }

    /** A restart of the process keeps the file and the database. */
    method Restart()
      modifies tailer, this`resumed
      ensures tailer.offset == 0 && !resumed
    {
      tailer.Commit(0);
      resumed := false;
    }
  }

  // ----- runs

  datatype Event = Append(text: string) | Collect(faults: Faults, late: string) | Crash

  function Start(): World {
    World(None, 0, false, [], None, [], 0)
  }

  function Step(w: World, parse: Parser, e: Event): World {
    match e
    case Append(text) => w.(file := Appended(w.file, text))
    case Collect(f, late) => AfterCollect(w, parse, f, late)
    case Crash => w.(offset := 0, resumed := false)
  }

  function RunOf(parse: Parser, events: seq<Event>): World {
    if events == [] then Start() else Step(RunOf(parse, events[..|events| - 1]), parse, events[|events| - 1])
  }

  /**
   What a restarted process needs of the file: the first line of a file it has read can serve as identity, and a file
   it has not read does not start with the first line the stored position remembers of an earlier one.
   */
  predicate Identified(w: World) {
    && (w.mark > 0 ==> CanIdentify(Text(w.file)))
    && (w.mark == 0 && w.cursor.Some? && w.cursor.value.head != "" ==>
          Lines(Text(w.file)) == [] || Lines(Text(w.file))[0] != w.cursor.value.head)
  }

  function StoredOf(parse: Parser, past: seq<string>): seq<Entry> {
    if past == [] then [] else StoredOf(parse, past[..|past| - 1]) + RowsOf(parse, Lines(past[|past| - 1]))
  }

  /** The rows are the accepted lines of each earlier file's stored part and of the present file up to the mark. */
  ghost predicate Exact(w: World, parse: Parser) {
    && w.mark <= |Text(w.file)| && Complete(Text(w.file)[..w.mark])
    && w.rows == StoredOf(parse, w.past) + RowsOf(parse, Lines(Text(w.file)[..w.mark]))
  }

  /** A resumed process stands at the mark; the database knows the mark as soon as there is one. */
  ghost predicate Synchronised(w: World) {
    && (if w.resumed then w.offset == w.mark else w.offset == 0)
    && (w.mark > 0 ==> '\n' in Text(w.file) && w.cursor == Some(Cursor(w.mark, HeadOf(w.file))))
  }

  ghost predicate Inv(w: World, parse: Parser) {
    Exact(w, parse) && Synchronised(w)
  }

  lemma {:induction false} RowsConcat(parse: Parser, xs: seq<string>, ys: seq<string>)
    ensures RowsOf(parse, xs + ys) == RowsOf(parse, xs) + RowsOf(parse, ys)
    decreases |ys|
  {
    if ys == [] {
      assert xs + ys == xs;
    } else {
      RowsConcat(parse, xs, ys[..|ys| - 1]);
      assert (xs + ys)[..|xs + ys| - 1] == xs + ys[..|ys| - 1];
    }
  }

  /** Stored are exactly the lines that are recognised and not the control inbound's, each as its parser reads it. */
  lemma {:induction false} AcceptedExactly(parse: Parser, lines: seq<string>, e: Entry)
    ensures e in RowsOf(parse, lines) <==> e.inbound != "api" && exists line <- lines :: parse(line) == Some(e)
  {
    if lines != [] {
      var front, last := lines[..|lines| - 1], lines[|lines| - 1];
      AcceptedExactly(parse, front, e);
      assert lines == front + [last];
    }
  }

  lemma AppendKeepsInv(w: World, parse: Parser, text: string)
    requires Inv(w, parse)
    ensures Inv(w.(file := Appended(w.file, text)), parse)
  {
    var before, after := Text(w.file), Text(Appended(w.file, text));
    AppendedText(w.file, text, w.mark);
    hide Appended, Lines, RowsOf, StoredOf, HeadOf;
    if w.mark > 0 {
      HeadStable(before, text);
    }
  }

  lemma AppendedText(file: Option<string>, text: string, n: nat)
    requires n <= |Text(file)|
    ensures Text(Appended(file, text)) == Text(file) + text
    ensures Text(Appended(file, text))[..n] == Text(file)[..n]
    ensures '\n' in Text(file) ==> Appended(file, text) == Some(Text(file) + text) && '\n' in Text(file) + text && file == Some(Text(file))
  {
    assert Text(file) + "" == Text(file);
  }

  /** After a restart the position is the mark exactly when the first line can serve as identity. */
  lemma RestartResumes(w: World, parse: Parser)
    requires Inv(w, parse) && !w.resumed && w.mark > 0
    ensures AfterResume(w).offset == w.mark <==> CanIdentify(Text(w.file))
  {
    HeadIsFirstLine(Text(w.file));
    hide HeadOf, CanIdentify;
  }

  lemma ResumeKeepsInv(w: World, parse: Parser)
    requires Inv(w, parse) && (w.resumed || Identified(w))
    ensures Inv(AfterResume(w), parse)
  {
    HeadIsFirstLine(Text(w.file));
    NoFileNoHead();
    hide HeadOf, Lines, RowsOf, StoredOf, Complete;
  }

  lemma NoFileNoHead()
    ensures HeadOf(None) == HeadOf(Some("")) == ""
  {
  }

  /** A chunk's rows are those of the lines it read. */
  lemma ChunkRows(parse: Parser, text: string, mark: nat)
    requires Strict(parse) && mark <= |text| && Complete(text[..mark])
    ensures var c := PeekAt(text, mark, MAX_READ_BYTES);
      && Complete(text[..c.next])
      && RowsOf(parse, Lines(text[..c.next])) == RowsOf(parse, Lines(text[..mark])) + RowsOf(parse, c.lines)
  {
    var c := PeekAt(text, mark, MAX_READ_BYTES);
    PeekReadsLines(text, mark, MAX_READ_BYTES);
    assert RowsOf(parse, [""]) == [];
    hide PeekAt, Lines, Complete;
    RowsConcat(parse, Lines(text[..mark]), Lines(text[mark..c.next]));
  }

  lemma Regroup(xs: seq<Entry>, ys: seq<Entry>, zs: seq<Entry>)
    ensures xs + (ys + zs) == (xs + ys) + zs
  {
  }

  lemma PrefixOfAppended(text: string, late: string, n: nat)
    requires n <= |text|
    ensures Text(Appended(Some(text), late)) == text + late && n <= |text + late| && (text + late)[..n] == text[..n]
  {
    assert text + "" == text;
  }

  /** Storing a chunk moves the mark over exactly the lines that were read. */
  lemma StoreKeepsExact(w: World, parse: Parser, late: string)
    requires Strict(parse) && Exact(w, parse) && w.file.Some?
    ensures var c := PeekAt(w.file.value, w.mark, MAX_READ_BYTES);
      Exact(AfterStore(w.(file := Appended(w.file, late)), parse, c), parse)
  {
    var text := w.file.value;
    var c := PeekAt(text, w.mark, MAX_READ_BYTES);
    ChunkRows(parse, text, w.mark);
    PrefixOfAppended(text, late, c.next);
    hide PeekAt, Lines, Complete, StoredOf, RowsOf, Appended, HeadOf;
    Regroup(StoredOf(parse, w.past), RowsOf(parse, Lines(text[..w.mark])), RowsOf(parse, c.lines));
  }

  lemma StoreSynchronised(w: World, parse: Parser, late: string, c: Chunk)
    requires w.file.Some? && 0 < c.next <= |w.file.value| && Complete(w.file.value[..c.next])
    ensures var r := AfterStore(w.(file := Appended(w.file, late)), parse, c);
      Synchronised(r.(offset := c.next, resumed := true)) && Synchronised(r.(offset := 0, resumed := false))
  {
    PrefixOfAppended(w.file.value, late, c.next);
    var all := w.file.value + late;
    assert all[c.next - 1] == w.file.value[..c.next][c.next - 1] == '\n';
    hide HeadOf, RowsOf;
  }

  lemma ConsumeKeepsInv(w: World, parse: Parser, f: Faults, late: string)
    requires Strict(parse) && Inv(w, parse) && w.resumed
    ensures var r := Consumed(w, parse, f, late); Inv(r.w, parse) && (r.Go? ==> r.w.resumed)
  {
    AppendKeepsInv(w, parse, late);
    if w.file.Some? {
      StoreKeepsExact(w, parse, late);
      var c := PeekAt(w.file.value, w.mark, MAX_READ_BYTES);
      if c.next != w.mark {
        ChunkRows(parse, w.file.value, w.mark);
        StoreSynchronised(w, parse, late, c);
      }
      assert Peeked(w) == c && ReadFrom(w) == w.mark;
    }
    hide Lines, RowsOf, StoredOf, PeekAt, HeadOf, Complete, Appended, Peeked, ReadFrom;
  }

  lemma TruncateKeepsInv(w: World, parse: Parser)
    requires Inv(w, parse)
    ensures Inv(AfterTruncate(w), parse)
  {
    if w.file.Some? && |w.file.value| > MAX_FILE_SIZE {
      var before, r := w.file.value[..w.mark], AfterTruncate(w);
      NoLines("");
      assert r.past[..|r.past| - 1] == w.past && r.past[|r.past| - 1] == before;
      assert Text(r.file)[..0] == "";
      hide Lines;
      assert RowsOf(parse, []) == [];
    }
  }

  lemma CollectKeepsInv(w: World, parse: Parser, f: Faults, late: string)
    requires Strict(parse) && Inv(w, parse) && (w.resumed || Identified(w))
    ensures Inv(AfterCollect(w, parse, f, late), parse)
  {
    AppendKeepsInv(w, parse, late);
    ResumeKeepsInv(w, parse);
    ConsumeKeepsInv(AfterResume(w), parse, f, late);
    TruncateKeepsInv(Consumed(AfterResume(w), parse, f, late).w, parse);
    hide Inv, Consumed, AfterTruncate, Identified;
  }

  predicate Legal(w: World, e: Event) {
    e.Collect? ==> w.resumed || Identified(w)
  }

  predicate LegalRun(parse: Parser, events: seq<Event>) {
    forall i :: 0 <= i < |events| ==> Legal(RunOf(parse, events[..i]), events[i])
  }

  lemma LegalPrefix(parse: Parser, events: seq<Event>)
    requires events != [] && LegalRun(parse, events)
    ensures LegalRun(parse, events[..|events| - 1]) && Legal(RunOf(parse, events[..|events| - 1]), events[|events| - 1])
  {
    hide Legal, RunOf;
    var front := events[..|events| - 1];
    forall i | 0 <= i < |front|
      ensures Legal(RunOf(parse, front[..i]), front[i])
    {
      assert front[..i] == events[..i];
    }
  }

  lemma StepKeepsInv(w: World, parse: Parser, e: Event)
    requires Strict(parse) && Inv(w, parse) && Legal(w, e)
    ensures Inv(Step(w, parse, e), parse)
  {
    match e
    case Append(text) => AppendKeepsInv(w, parse, text);
    case Collect(f, late) => CollectKeepsInv(w, parse, f, late);
    case Crash =>
      hide Lines, RowsOf, StoredOf, HeadOf;
  }

  lemma StartInv(parse: Parser)
    ensures Inv(Start(), parse)
  {
    NoLines("");
    assert Text(Start().file)[..0] == "";
    assert RowsOf(parse, []) == [];
  }

  /**
   Over any run of appends, collections with any failing steps, crashes and restarts: the stored rows are exactly the
   accepted lines, once each and in order, of what was stored of every earlier file and of the present file up to the
   mark, however the reads were cut; and a process that has resumed goes on from the mark.
   */
  lemma {:induction false} StoredExactlyOnce(parse: Parser, events: seq<Event>)
    requires Strict(parse) && LegalRun(parse, events)
    ensures Inv(RunOf(parse, events), parse)
  {
    if events == [] {
      StartInv(parse);
    } else {
      var front, e := events[..|events| - 1], events[|events| - 1];
      LegalPrefix(parse, events);
      StoredExactlyOnce(parse, front);
      StepKeepsInv(RunOf(parse, front), parse, e);
      hide Inv, Legal, LegalRun, Step;
    }
  }

  const NO_FAULTS := Faults(false, false, false, false, false, false)

  /** A failed transaction leaves rows, position and mark alone; the next collection reads the same chunk again. */
  lemma FailedStoreRereads(w: World, parse: Parser, f: Faults)
    requires Inv(w, parse) && w.resumed && f.store && !f.peek
    requires Peeked(w).next != ReadFrom(w)
    ensures AfterCollect(w, parse, f, "") == w
  {
    assert Appended(w.file, "") == w.file;
    hide PeekAt, Lines, RowsOf, StoredOf, HeadOf;
  }

  lemma Faultless(w: World, parse: Parser)
    requires w.resumed && w.file.Some? && w.offset <= |w.file.value|
    ensures var c := PeekAt(w.file.value, w.offset, MAX_READ_BYTES);
      AfterCollect(w, parse, NO_FAULTS, "") ==
      AfterTruncate(if c.next == w.offset then w else AfterStore(w, parse, c).(offset := c.next))
  {
    hide PeekAt, RowsOf, HeadOf;
  }

  /**
   Without failures and with no more unread than one read takes, a collection leaves no complete line behind, even
   when it truncates the file.
   */
  lemma CaughtUp(w: World, parse: Parser)
    requires Inv(w, parse) && w.resumed && w.file.Some? && |w.file.value| - w.mark <= MAX_READ_BYTES
    ensures var r, text := AfterCollect(w, parse, NO_FAULTS, ""), w.file.value;
      if |text| > MAX_FILE_SIZE
      then |r.past| == |w.past| + 1 && r.past[|w.past|] <= text && '\n' !in text[|r.past[|w.past|]|..] && r.file == Some("")
      else w.mark <= r.mark <= |text| && '\n' !in text[r.mark..] && r.file == w.file
  {
    var text := w.file.value;
    PeekAll(text, w.mark, MAX_READ_BYTES);
    Faultless(w, parse);
    hide PeekAt, Lines, RowsOf, StoredOf, HeadOf, AfterCollect, Complete;
  }

  /** Where the first line cannot serve as identity, a restart stores the whole file a second time. */
  lemma RestartDuplicates(w: World, parse: Parser)
    requires Strict(parse) && Inv(w, parse) && !w.resumed && w.mark > 0 && !CanIdentify(Text(w.file))
    requires |w.file.value| <= MAX_READ_BYTES
    ensures var r, text := AfterCollect(w, parse, NO_FAULTS, ""), w.file.value;
      && r.mark <= |text| && r.rows == w.rows + RowsOf(parse, Lines(text[..r.mark])) && r.mark >= w.mark
  {
    var text := w.file.value;
    var c := PeekAt(text, 0, MAX_READ_BYTES);
    HeadIsFirstLine(text);
    PeekAll(text, 0, MAX_READ_BYTES);
    Faultless(AfterResume(w), parse);
    RowsFromStart(parse, text);
    hide PeekAt, Lines, RowsOf, StoredOf, HeadOf;
    assert text[..w.mark][w.mark - 1] == text[w.mark - 1];
    NoBreakBeyond(text, c.next);
    assert AfterCollect(w, parse, NO_FAULTS, "") == AfterCollect(AfterResume(w), parse, NO_FAULTS, "");
    hide Complete, AfterCollect;
  }

  lemma NoBreakBeyond(text: string, n: nat)
    requires n <= |text| && '\n' !in text[n..]
    ensures forall i :: n <= i < |text| ==> text[i] != '\n'
  {
    forall i | n <= i < |text|
      ensures text[i] != '\n'
    {
      assert text[n..][i - n] == text[i];
    }
  }

  lemma RowsFromStart(parse: Parser, text: string)
    requires Strict(parse)
    ensures var c := PeekAt(text, 0, MAX_READ_BYTES); RowsOf(parse, Lines(text[..c.next])) == RowsOf(parse, c.lines)
  {
    assert text[..0] == "" && RowsOf(parse, []) == [];
    NoLines("");
    ChunkRows(parse, text, 0);
    hide PeekAt, Lines;
  }

  function OnlyX(s: string): Option<Entry> {
    if s == "x" then Some(Entry("in", "x")) else None
  }

  lemma FirstCollect(parse: Parser, text: string)
    requires Strict(parse) && text != "" && Complete(text) && |text| <= MAX_READ_BYTES && !CanIdentify(text)
    ensures AfterCollect(Start().(file := Some(text)), parse, NO_FAULTS, "") ==
      World(Some(text), |text|, true, RowsOf(parse, Lines(text)), Some(Cursor(|text|, "")), [], |text|)
  {
    var w := Start().(file := Some(text));
    var c := PeekAt(text, 0, MAX_READ_BYTES);
    HeadIsFirstLine(text);
    hide PeekAt, Lines, RowsOf, HeadOf, CanIdentify;
    PeekAll(text, 0, MAX_READ_BYTES);
    NoBreakBeyond(text, c.next);
    RowsFromStart(parse, text);
    hide Complete, Strict;
    WholePrefix(text, c.next);
    Faultless(AfterResume(w), parse);
    assert AfterCollect(w, parse, NO_FAULTS, "") == AfterCollect(AfterResume(w), parse, NO_FAULTS, "");
    hide AfterCollect;
  }

  lemma CrashedInv(parse: Parser, text: string)
    requires text != "" && Complete(text) && !CanIdentify(text)
    ensures Inv(Crashed(parse, text), parse)
  {
    assert text[..|text|] == text && text[|text| - 1] in text;
    HeadIsFirstLine(text);
    hide RowsOf, Lines, HeadOf, CanIdentify;
    assert StoredOf(parse, []) == [];
  }

  /** From the start: append such a file, collect, crash and collect again, and every row is there twice. */
  lemma UnusableHeadDuplicates(parse: Parser, text: string)
    requires Strict(parse) && text != "" && Complete(text) && |text| <= MAX_READ_BYTES && !CanIdentify(text)
    ensures var w := Step(Step(Step(Start(), parse, Append(text)), parse, Collect(NO_FAULTS, "")), parse, Crash);
      Step(w, parse, Collect(NO_FAULTS, "")).rows == RowsOf(parse, Lines(text)) + RowsOf(parse, Lines(text))
  {
    CrashAfterFirst(parse, text);
    CrashedInv(parse, text);
    var w := Crashed(parse, text);
    RestartDuplicates(w, parse);
    hide AfterCollect, Lines, RowsOf, HeadOf, Inv, Complete, Strict, CanIdentify;
    WholePrefix(text, AfterCollect(w, parse, NO_FAULTS, "").mark);
  }

  function Crashed(parse: Parser, text: string): World {
    World(Some(text), 0, false, RowsOf(parse, Lines(text)), Some(Cursor(|text|, "")), [], |text|)
  }

  lemma CrashAfterFirst(parse: Parser, text: string)
    requires Strict(parse) && text != "" && Complete(text) && |text| <= MAX_READ_BYTES && !CanIdentify(text)
    ensures Step(Step(Step(Start(), parse, Append(text)), parse, Collect(NO_FAULTS, "")), parse, Crash) == Crashed(parse, text)
  {
    FirstCollect(parse, text);
    assert Text(None) + text == text;
    hide AfterCollect, Lines, RowsOf, HeadOf, Complete, Strict;
  }

  lemma WholePrefix(text: string, n: nat)
    requires |text| <= n <= |text|
    ensures text[..n] == text
  {
  }

  /** An empty first line is such a file. */
  lemma ExampleText(text: string)
    requires text == "\nx\n"
    ensures RowsOf(OnlyX, Lines(text)) == [Entry("in", "x")] && !CanIdentify(text)
  {
    LinesUnfold("", "x\n");
    LinesUnfold("x", "");
    NoLines("");
    hide Lines;
    assert text == "" + "\n" + "x\n" && "x\n" == "x" + "\n" + "";
    var lines := Lines(text);
    assert lines == ["", "x"] && lines[..1] == [""] && lines[..1][..0] == [];
    assert RowsOf(OnlyX, [""]) == [];
  }
}
