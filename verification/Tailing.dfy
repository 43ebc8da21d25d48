/** Following a growing log file by offset, one complete line at a time. */
module Tailing {
  import opened Collections

  const HEAD_MAX_BYTES := 4096

  /** The position of the first line break, or the length when there is none. */
  function FirstBreak(s: string): (i: nat)
    ensures i <= |s| && '\n' !in s[..i] && (i < |s| ==> s[i] == '\n')
  {
    if s == [] || s[0] == '\n' then 0
    else
      var i := FirstBreak(s[1..]);
      assert s[..1 + i] == [s[0]] + s[1..][..i];
      1 + i
  }

  /** The position after the last line break, 0 when there is none. */
  function AfterLastBreak(s: string): (i: nat)
    ensures i <= |s| && (i > 0 ==> s[i - 1] == '\n') && '\n' !in s[i..]
  {
    if s == [] then 0
    else if s[|s| - 1] == '\n' then |s|
    else
      var i := AfterLastBreak(s[..|s| - 1]);
      assert s[i..] == s[..|s| - 1][i..] + [s[|s| - 1]];
      i
  }

  function Split(text: string): seq<string> {
    var i := FirstBreak(text);
    if i == |text| then [text] else [text[..i]] + Split(text[i + 1..])
  }

  /** The complete lines of a text. What follows the last line break is not a line yet. */
  function Lines(text: string): seq<string> {
    var i := FirstBreak(text);
    if i == |text| then [] else [text[..i]] + Lines(text[i + 1..])
  }

  predicate Complete(text: string) {
    text == "" || text[|text| - 1] == '\n'
  }

  datatype Chunk = Chunk(lines: seq<string>, next: nat)

  /** The bytes one read sees. */
  function Window(file: string, offset: nat, maxBytes: nat): string
    requires offset <= |file|
  {
    if |file| - offset > maxBytes then file[offset..offset + maxBytes] else file[offset..]
  }

  lemma PeekNothing(file: string, maxBytes: nat)
    ensures PeekAt(file, |file|, maxBytes) == Chunk([], |file|)
  {
  }

  lemma PeekIs(file: string, offset: nat, maxBytes: nat, buf: string)
    requires offset <= |file| && buf == Window(file, offset, maxBytes)
    ensures var end := AfterLastBreak(buf);
      PeekAt(file, offset, maxBytes) ==
        if end == 0 then Chunk([], offset) else Chunk(if end == 1 then [] else Split(buf[..end - 1]), offset + end)
  {
  }

  lemma WindowIs(file: string, offset: nat, maxBytes: nat)
    requires offset <= |file|
    ensures Window(file, offset, maxBytes) ==
      file[offset..offset + if |file| - offset > maxBytes then maxBytes else |file| - offset]
  {
  }

  function PeekAt(file: string, offset: nat, maxBytes: nat): (c: Chunk)
    requires offset <= |file|
    ensures offset <= c.next <= |file|
  {
    var buf := Window(file, offset, maxBytes);
    var end := AfterLastBreak(buf);
    if end == 0 then Chunk([], offset)
    else Chunk(if end == 1 then [] else Split(buf[..end - 1]), offset + end)
  }

  /** The first complete line of the file, empty when there is none within reach. */
  function HeadOf(file: Option<string>): string {
    match file
    case None => ""
    case Some(text) =>
      var buf := if |text| > HEAD_MAX_BYTES then text[..HEAD_MAX_BYTES] else text;
      var i := FirstBreak(buf);
      if i == |buf| then "" else buf[..i]
  }

  function Size(file: Option<string>): nat {
    match file
    case None => 0
    case Some(text) => |text|
  }

  /** Whether a saved position still belongs to this file. */
  predicate Resumable(file: Option<string>, offset: nat, head: string) {
    head != "" && offset > 0 && HeadOf(file) == head && Size(file) >= offset
  }

  class Tailer {
    var offset: nat

    constructor ()
      ensures offset == 0
    {
      offset := 0;
    }

    /** Reads without advancing; a file shorter than the offset is read from its start. */
    method Peek(file: Option<string>, maxBytes: nat) returns (lines: seq<string>, next: nat)
      modifies this
      ensures offset == if file.Some? && |file.value| < old(offset) then 0 else old(offset)
      ensures Chunk(lines, next) == if file.None? then Chunk([], offset) else PeekAt(file.value, offset, maxBytes)
    {
      if file.None? {
        return [], offset;
      }
      var size := |file.value|;
      if size < offset {
        offset := 0;
      }
      hide Window, Split, AfterLastBreak, PeekAt;
      if size == offset {
        PeekNothing(file.value, maxBytes);
        return [], offset;
      }
      var count := size - offset;
      if count > maxBytes {
        count := maxBytes;
      }
      var buf := file.value[offset..offset + count];
      WindowIs(file.value, offset, maxBytes);
      PeekIs(file.value, offset, maxBytes, buf);
      var end := AfterLastBreak(buf);
      if end == 0 {
        return [], offset;
      }
      next := offset + end;
      var text := buf[..end - 1];
      if |text| == 0 {
        return [], next;
      }
      lines := Split(text);
    }

    method Commit(next: nat)
      modifies this
      ensures offset == next
    {
      offset := next;
    }

    method Head(file: Option<string>) returns (head: string)
      ensures head == HeadOf(file)
    {
      if file.None? {
        return "";
      }
      var text := file.value;
      var buf := if |text| > HEAD_MAX_BYTES then text[..HEAD_MAX_BYTES] else text;
      var end := FirstBreak(buf);
      if end == |buf| {
        return "";
      }
      return buf[..end];
    }

    method Resume(file: Option<string>, saved: nat, head: string) returns (ok: bool)
      modifies this
      ensures ok <==> Resumable(file, saved, head)
      ensures offset == if ok then saved else old(offset)
    {
      if head == "" || saved == 0 {
        return false;
      }
      var cur := Head(file);
      if cur != head {
        return false;
      }
      if file.None? || |file.value| < saved {
        return false;
      }
      offset := saved;
      return true;
    }

    method TruncateIfLargerThan(file: Option<string>, maxSize: nat) returns (left: Option<string>)
      modifies this
      ensures left == if Size(file) > maxSize then Some("") else file
      ensures offset == if Size(file) > maxSize then 0 else old(offset)
    {
      if file.None? {
        return file;
      }
      if |file.value| <= maxSize {
        return file;
      }
      left := Some("");
      offset := 0;
    }
  }

  // ----- reading in chunks is reading the file

  lemma {:induction false} FirstBreakConcat(xs: string, ys: string)
    ensures FirstBreak(xs) < |xs| ==> FirstBreak(xs + ys) == FirstBreak(xs)
    ensures FirstBreak(xs) == |xs| ==> FirstBreak(xs + ys) == |xs| + FirstBreak(ys)
  {
    if xs == [] {
      assert xs + ys == ys;
    } else if xs[0] != '\n' {
      FirstBreakConcat(xs[1..], ys);
      assert (xs + ys)[1..] == xs[1..] + ys;
    }
  }

  lemma {:induction false} BreakAfter(line: string, rest: string)
    requires '\n' !in line
    ensures FirstBreak(line + "\n" + rest) == |line|
  {
    if line == "" {
      assert (line + "\n" + rest)[0] == '\n';
    } else {
      BreakAfter(line[1..], rest);
      assert (line + "\n" + rest)[1..] == line[1..] + "\n" + rest;
    }
  }

  lemma LinesUnfold(line: string, rest: string)
    requires '\n' !in line
    ensures Lines(line + "\n" + rest) == [line] + Lines(rest)
    ensures Split(line + "\n" + rest) == [line] + Split(rest)
  {
    var all := line + "\n" + rest;
    BreakAfter(line, rest);
    assert all[..|line|] == line && all[|line| + 1..] == rest;
  }

  lemma CutFirstLine(text: string) returns (line: string, rest: string)
    requires '\n' in text
    ensures '\n' !in line && text == line + "\n" + rest && |rest| < |text|
  {
    var i := FirstBreak(text);
    assert text[..|text|] == text;
    line, rest := text[..i], text[i + 1..];
  }

  lemma {:induction false} NoLines(text: string)
    requires '\n' !in text
    ensures Lines(text) == [] && Split(text) == [text]
  {
    var i := FirstBreak(text);
  }

  /** Lines may be cut apart after any line break. */
  lemma {:induction false} LinesConcat(xs: string, ys: string)
    requires Complete(xs)
    ensures Lines(xs + ys) == Lines(xs) + Lines(ys)
    decreases |xs|
  {
    hide Lines;
    if xs == [] {
      NoLines(xs);
      assert xs + ys == ys;
    } else {
      assert xs[|xs| - 1] in xs;
      var line, rest := CutFirstLine(xs);
      CompleteRest(line, rest);
      hide FirstBreak, Complete;
      LinesConcat(rest, ys);
      LinesConcatStep(line, rest, ys);
    }
  }

  lemma LinesConcatStep(line: string, rest: string, ys: string)
    requires '\n' !in line && Lines(rest + ys) == Lines(rest) + Lines(ys)
    ensures Lines((line + "\n" + rest) + ys) == Lines(line + "\n" + rest) + Lines(ys)
  {
    hide Lines;
    LinesUnfold(line, rest);
    LinesUnfold(line, rest + ys);
    RegroupText(line + "\n", rest, ys);
    Regroup([line], Lines(rest), Lines(ys));
  }

  lemma RegroupText(xs: string, ys: string, zs: string)
    ensures xs + (ys + zs) == (xs + ys) + zs
  {
  }

  lemma Regroup(xs: seq<string>, ys: seq<string>, zs: seq<string>)
    ensures xs + (ys + zs) == (xs + ys) + zs
  {
  }

  lemma CompleteRest(line: string, rest: string)
    requires Complete(line + "\n" + rest)
    ensures Complete(rest)
  {
    var all := line + "\n" + rest;
    if rest != "" {
      assert all[|all| - 1] == rest[|rest| - 1];
    }
  }

  /** Splitting without the last line break gives the lines with it. */
  lemma {:induction false} SplitIsLines(text: string)
    ensures Split(text) == Lines(text + "\n")
    decreases |text|
  {
    hide Lines, Split;
    if '\n' in text {
      var line, rest := CutFirstLine(text);
      SplitIsLines(rest);
      LinesUnfold(line, rest);
      LinesUnfold(line, rest + "\n");
      assert text + "\n" == line + "\n" + (rest + "\n");
    } else {
      NoLines(text);
      LinesUnfold(text, "");
      NoLines("");
      assert text + "\n" + "" == text + "\n";
    }
  }

  /** The first line can serve as a file's identity: there is one, it is not empty, and it ends within reach. */
  predicate CanIdentify(text: string) {
    Lines(text) != [] && Lines(text)[0] != "" && |Lines(text)[0]| < HEAD_MAX_BYTES
  }

  /** A file's identity is its first line, if that ends within reach, and nothing otherwise. */
  lemma HeadIsFirstLine(text: string)
    ensures HeadOf(Some(text)) == if Lines(text) != [] && |Lines(text)[0]| < HEAD_MAX_BYTES then Lines(text)[0] else ""
    ensures HeadOf(Some(text)) != "" <==> CanIdentify(text)
  {
    if '\n' !in text {
      NoLines(text);
      NoHead(text);
    } else {
      var line, rest := CutFirstLine(text);
      LinesUnfold(line, rest);
      hide Lines, HeadOf;
      HeadOfLine(line, rest);
    }
  }

  lemma NoHead(text: string)
    requires '\n' !in text
    ensures HeadOf(Some(text)) == ""
  {
    NotBroken(if |text| > HEAD_MAX_BYTES then text[..HEAD_MAX_BYTES] else text);
  }

  lemma HeadOfLine(line: string, rest: string)
    requires '\n' !in line
    ensures HeadOf(Some(line + "\n" + rest)) == if |line| < HEAD_MAX_BYTES then line else ""
  {
    var text := line + "\n" + rest;
    var buf := if |text| > HEAD_MAX_BYTES then text[..HEAD_MAX_BYTES] else text;
    if |line| < HEAD_MAX_BYTES {
      var more := buf[|line| + 1..];
      assert buf == line + "\n" + more;
      BreakAfter(line, more);
      hide FirstBreak;
      assert buf[..|line|] == line;
    } else {
      assert buf == line[..HEAD_MAX_BYTES];
      NotBroken(buf);
      hide FirstBreak;
    }
  }

  lemma NotBroken(s: string)
    requires '\n' !in s
    ensures FirstBreak(s) == |s|
  {
  }

  /** Files of one identity begin with one line. */
  lemma SameHeadSameLine(a: string, b: string)
    requires HeadOf(Some(a)) == HeadOf(Some(b)) != ""
    ensures Lines(a) != [] && Lines(b) != [] && Lines(a)[0] == Lines(b)[0]
  {
    HeadIsFirstLine(a);
    HeadIsFirstLine(b);
    hide HeadOf, Lines;
  }

  /** A first line once complete stays the first line. */
  lemma HeadStable(text: string, more: string)
    requires '\n' in text
    ensures HeadOf(Some(text + more)) == HeadOf(Some(text))
  {
    var buf := if |text| > HEAD_MAX_BYTES then text[..HEAD_MAX_BYTES] else text;
    var all := text + more;
    var wide := if |all| > HEAD_MAX_BYTES then all[..HEAD_MAX_BYTES] else all;
    assert wide == buf + wide[|buf|..];
    FirstBreakConcat(buf, wide[|buf|..]);
    if |text| <= HEAD_MAX_BYTES {
      assert buf[..|buf|] == text;
      assert FirstBreak(buf) < |buf|;
    }
  }

  lemma PeekShape(file: string, offset: nat, maxBytes: nat)
    requires offset <= |file|
    ensures var c, part := PeekAt(file, offset, maxBytes), file[offset..PeekAt(file, offset, maxBytes).next];
      if part == "" then c.lines == []
      else part[|part| - 1] == '\n' && c.lines == if |part| == 1 then [] else Split(part[..|part| - 1])
  {
    hide Split;
    var buf := Window(file, offset, maxBytes);
    var end := AfterLastBreak(buf);
    if end > 0 {
      assert file[offset..offset + end] == buf[..end];
      assert buf[..end][..end - 1] == buf[..end - 1];
    }
  }

  lemma JoinLines(file: string, from: nat, to: nat)
    requires from <= to <= |file| && Complete(file[..from]) && Complete(file[from..to])
    ensures Complete(file[..to]) && Lines(file[..to]) == Lines(file[..from]) + Lines(file[from..to])
  {
    hide Lines;
    var done, part := file[..from], file[from..to];
    LinesConcat(done, part);
    assert file[..to] == done + part;
  }

  lemma PartLines(part: string)
    requires part != "" && part[|part| - 1] == '\n'
    ensures Split(part[..|part| - 1]) == Lines(part)
    ensures |part| == 1 ==> Lines(part) == [""]
  {
    hide Lines, Split;
    SplitIsLines(part[..|part| - 1]);
    assert part == part[..|part| - 1] + "\n";
    if |part| == 1 {
      assert part[..0] == "";
      NoLines("");
    }
  }

  /** What one read returns are the lines between the two offsets, except that a lone line break returns none. */
  lemma PeekReadsLines(file: string, offset: nat, maxBytes: nat)
    requires offset <= |file| && Complete(file[..offset])
    ensures var c := PeekAt(file, offset, maxBytes);
      && Complete(file[..c.next])
      && Lines(file[..c.next]) == Lines(file[..offset]) + Lines(file[offset..c.next])
      && (c.lines == Lines(file[offset..c.next]) || (c.lines == [] && Lines(file[offset..c.next]) == [""]))
  {
    var c := PeekAt(file, offset, maxBytes);
    var part := file[offset..c.next];
    PeekShape(file, offset, maxBytes);
    hide Lines, Split, PeekAt;
    if part == "" {
      NoLines(part);
    } else {
      PartLines(part);
    }
    assert Complete(part);
    hide Complete;
    JoinLines(file, offset, c.next);
  }

  /** A read that is not cut off leaves no complete line behind. */
  lemma PeekAll(file: string, offset: nat, maxBytes: nat)
    requires offset <= |file| && |file| - offset <= maxBytes
    ensures '\n' !in file[PeekAt(file, offset, maxBytes).next..]
  {
    hide Split;
    var buf := Window(file, offset, maxBytes);
    var end := AfterLastBreak(buf);
    assert file[offset + end..] == buf[end..];
  }
}
