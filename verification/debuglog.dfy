/**
  The size-capped browser logs of the development server, vite.config.ts.  A file is its text, as
  Unicode characters; its size is counted in UTF-8 bytes.
 */
module DebugLog {
  import opened Texts

  const MAX_LOG_SIZE_BYTES: nat := 1048576

  /** Math.floor(MAX_LOG_SIZE_BYTES * 0.6) */
  const TRIM_TARGET_BYTES: nat := 629145

  /** 1 MB, and 60 % of it rounded down. */
  lemma TargetIsSixtyPercent()
    ensures MAX_LOG_SIZE_BYTES == 1024 * 1024
    ensures TRIM_TARGET_BYTES as real <= 0.6 * MAX_LOG_SIZE_BYTES as real < TRIM_TARGET_BYTES as real + 1.0
  {
  }

  // ---------------------------------------------------------------- bytes and lines

  function Utf8Length(c: char): (n: nat)
    ensures 1 <= n <= 4
  {
    if c as int < 0x80 then 1 else if c as int < 0x800 then 2 else if c as int < 0x1_0000 then 3 else 4
  }

  /** The bytes of a character, section 3 of RFC 3629: six bits in each byte but the first. */
  function Utf8(c: char): seq<int> {
    var n := c as int;
    var n1 := n / 0x40;
    var n2 := n1 / 0x40;
    if n < 0x80 then [n]
    else if n < 0x800 then [0xC0 + n1, 0x80 + n % 0x40]
    else if n < 0x1_0000 then [0xE0 + n2, 0x80 + n1 % 0x40, 0x80 + n % 0x40]
    else [0xF0 + n2 / 0x40, 0x80 + n2 % 0x40, 0x80 + n1 % 0x40, 0x80 + n % 0x40]
  }

  /** The first byte tells how many follow. */
  function FromUtf8(b: seq<int>): int {
    if |b| == 1 && b[0] < 0x80 then b[0]
    else if |b| == 2 && 0xC0 <= b[0] < 0xE0 then (b[0] - 0xC0) * 0x40 + (b[1] - 0x80)
    else if |b| == 3 && 0xE0 <= b[0] < 0xF0 then (b[0] - 0xE0) * 0x1000 + (b[1] - 0x80) * 0x40 + (b[2] - 0x80)
    else if |b| == 4 && 0xF0 <= b[0] < 0xF8 then
      (b[0] - 0xF0) * 0x4_0000 + (b[1] - 0x80) * 0x1000 + (b[2] - 0x80) * 0x40 + (b[3] - 0x80)
    else -1
  }

  /** The length is that of the encoding, which reads back as the character. */
  lemma Utf8ReadsBack(c: char)
    ensures |Utf8(c)| == Utf8Length(c) && FromUtf8(Utf8(c)) == c as int
    ensures forall i :: 0 < i < |Utf8(c)| ==> 0x80 <= Utf8(c)[i] < 0xC0
  {
  }

  /** Buffer.byteLength(s, "utf-8") */
  function Bytes(s: string): nat {
    if s == "" then 0 else Utf8Length(s[0]) + Bytes(s[1..])
  }

  lemma {:induction false} BytesConcat(a: string, b: string)
    ensures Bytes(a + b) == Bytes(a) + Bytes(b)
  {
    if a == "" {
      assert a + b == b;
    } else {
      assert (a + b)[1..] == a[1..] + b;
      BytesConcat(a[1..], b);
    }
  }

  /** What the trim adds up for some lines: their bytes and one for each line end. */
  function Cost(lines: seq<string>): nat {
    if lines == [] then 0 else Bytes(lines[0]) + 1 + Cost(lines[1..])
  }

  lemma {:induction false} CostOfJoin(lines: seq<string>)
    requires lines != []
    ensures Cost(lines) == Bytes(Join('\n', lines)) + 1
  {
    if |lines| > 1 {
      CostOfJoin(lines[1..]);
      BytesConcat(lines[0], ['\n'] + Join('\n', lines[1..]));
      BytesConcat(['\n'], Join('\n', lines[1..]));
      assert Bytes(['\n']) == 1;
    }
  }

  lemma {:induction false} CostConcat(a: seq<string>, b: seq<string>)
    ensures Cost(a + b) == Cost(a) + Cost(b)
  {
    if a == [] {
      assert a + b == b;
    } else {
      assert (a + b)[1..] == a[1..] + b;
      CostConcat(a[1..], b);
    }
  }

  // ---------------------------------------------------------------- the trim

  /** The newest lines that the backward scan keeps within a budget. */
  function Kept(lines: seq<string>, budget: int): seq<string> {
    if lines == [] then []
    else
      var init, last := lines[..|lines| - 1], lines[|lines| - 1];
      if Bytes(last) + 1 > budget then [] else Kept(init, budget - Bytes(last) - 1) + [last]
  }

  method KeepNewest(lines: seq<string>, targetSize: nat) returns (keptLines: seq<string>)
    ensures keptLines == Kept(lines, targetSize)
  {
    keptLines := [];
    var keptBytes := 0;
    var i := |lines| - 1;
    assert lines[..|lines|] == lines;
    while i >= 0
      invariant -1 <= i < |lines|
      invariant keptBytes <= targetSize
      invariant Kept(lines, targetSize) == Kept(lines[..i + 1], targetSize - keptBytes) + keptLines
    {
      var lineBytes := Bytes(lines[i]) + 1;
      assert lines[..i + 1][..i] == lines[..i] && lines[..i + 1][i] == lines[i];
      if keptBytes + lineBytes > targetSize {
        break;
      }
      keptLines := [lines[i]] + keptLines;
      keptBytes := keptBytes + lineBytes;
      i := i - 1;
    }
  }

  function Trimmed(content: string): string {
    if Bytes(content) <= MAX_LOG_SIZE_BYTES then content
    else Join('\n', Kept(Split('\n', content), TRIM_TARGET_BYTES))
  }

  /** The kept lines are those from some k on, and one line more would be over the budget. */
  lemma {:induction false} KeptFrom(lines: seq<string>, budget: nat) returns (k: nat)
    ensures k <= |lines| && Kept(lines, budget) == lines[k..]
    ensures Cost(lines[k..]) <= budget
    ensures k > 0 ==> Cost(lines[k - 1..]) > budget
  {
    if lines == [] {
      k := 0;
    } else {
      var init, last := lines[..|lines| - 1], lines[|lines| - 1];
      if Bytes(last) + 1 > budget {
        k := |lines|;
        CostSnoc(lines, k - 1);
      } else {
        k := KeptFrom(init, budget - Bytes(last) - 1);
        CostSnoc(lines, k);
        assert lines[k..] == init[k..] + [last];
        if k > 0 {
          CostSnoc(lines, k - 1);
        }
      }
    }
  }

  lemma CostSnoc(lines: seq<string>, k: nat)
    requires k < |lines|
    ensures Cost(lines[k..]) == Cost(lines[..|lines| - 1][k..]) + Bytes(lines[|lines| - 1]) + 1
  {
    var init, last := lines[..|lines| - 1], lines[|lines| - 1];
    assert lines[k..] == init[k..] + [last];
    CostConcat(init[k..], [last]);
  }

  // ---------------------------------------------------------------- what the trim promises

  /** Position k is where a line of s begins. */
  predicate LineStart(s: string, k: nat) {
    k <= |s| && (k == 0 || s[k - 1] == '\n')
  }

  /** r is the longest suffix of s made of whole lines that has at most limit bytes. */
  ghost predicate LongestLines(s: string, r: string, limit: nat) {
    exists k: nat :: IsCut(s, r, limit, k)
  }

  ghost predicate IsCut(s: string, r: string, limit: nat, k: nat) {
    && LineStart(s, k) && r == s[k..] && Bytes(r) <= limit
    && forall j: nat :: LineStart(s, j) && Bytes(s[j..]) <= limit ==> k <= j
  }

  /** Conversely, the last lines of a text, joined, are the text from a line start on. */
  lemma {:induction false} LastLines(s: string, k: nat) returns (p: nat)
    requires k < |Split('\n', s)|
    ensures LineStart(s, p) && s[p..] == Join('\n', Split('\n', s)[k..])
    ensures Split('\n', s[p..]) == Split('\n', s)[k..]
  {
    var lines := Split('\n', s);
    JoinSplit('\n', s);
    if k == 0 {
      p := 0;
      assert lines[0..] == lines && s[0..] == s;
    } else if s[0] == '\n' {
      var q := LastLines(s[1..], k - 1);
      p := q + 1;
      assert s[1..][q..] == s[p..];
      assert lines[k..] == Split('\n', s[1..])[k - 1..];
    } else {
      var q := LastLines(s[1..], k);
      p := q + 1;
      assert s[1..][q..] == s[p..];
      assert lines[k..] == Split('\n', s[1..])[k..];
    }
  }

  predicate EndsLine(s: string) {
    s != "" && s[|s| - 1] == '\n'
  }

  lemma LinesFrom(s: string, j: nat) returns (m: nat)
    requires LineStart(s, j)
    ensures m < |Split('\n', s)| && Split('\n', s[j..]) == Split('\n', s)[m..]
  {
    if j == 0 {
      m := 0;
      assert s[0..] == s && Split('\n', s)[0..] == Split('\n', s);
    } else {
      SplitAt('\n', s, j);
      m := |Split('\n', s[..j - 1])|;
    }
  }

  lemma FewerLines(s: string, j: nat, p: nat)
    requires LineStart(s, p) && j < p
    ensures |Split('\n', s[p..])| < |Split('\n', s[j..])|
  {
    assert s[j..][p - j..] == s[p..];
    SplitAt('\n', s[j..], p - j);
  }

  lemma CostOfText(s: string)
    ensures Cost(Split('\n', s)) == Bytes(s) + 1
  {
    JoinSplit('\n', s);
    CostOfJoin(Split('\n', s));
  }

  lemma MoreLinesCostMore(lines: seq<string>, m: nat, k: nat)
    requires m <= k <= |lines|
    ensures Cost(lines[k..]) <= Cost(lines[m..])
  {
    assert lines[m..] == lines[m..k] + lines[k..];
    CostConcat(lines[m..k], lines[k..]);
  }

  /** An earlier line start has more lines after it, which cost more than the budget. */
  lemma EarlierIsTooLong(s: string, budget: nat, k: nat, p: nat, j: nat)
    requires 0 < k < |Split('\n', s)| && Cost(Split('\n', s)[k - 1..]) > budget
    requires LineStart(s, p) && Split('\n', s[p..]) == Split('\n', s)[k..]
    requires LineStart(s, j) && j < p
    ensures Bytes(s[j..]) + 1 > budget
  {
    var m := LinesFrom(s, j);
    FewerLines(s, j, p);
    MoreLinesCostMore(Split('\n', s), m, k - 1);
    CostOfText(s[j..]);
  }

  lemma LastLineIsEmpty(s: string)
    requires EndsLine(s)
    ensures Split('\n', s)[|Split('\n', s)| - 1..] == [""]
  {
    SplitAt('\n', s, |s|);
    assert s[|s|..] == "";
  }

  /** With one byte of the budget set aside, the scan keeps the longest whole lines that fit. */
  lemma KeptIsLongest(s: string, budget: nat)
    requires EndsLine(s) && budget > 0
    ensures LongestLines(s, Join('\n', Kept(Split('\n', s), budget)), budget - 1)
  {
    var lines := Split('\n', s);
    var k := KeptFrom(lines, budget);
    LastLineIsEmpty(s);
    assert Cost([""]) == 1;
    var p := LastLines(s, k);
    CostOfJoin(lines[k..]);
    forall j: nat | LineStart(s, j) && Bytes(s[j..]) <= budget - 1
      ensures p <= j
    {
      if j < p {
        ZeroIsFirst(s, k, p);
        EarlierIsTooLong(s, budget, k, p, j);
      }
    }
    assert IsCut(s, s[p..], budget - 1, p);
  }

  lemma ZeroIsFirst(s: string, k: nat, p: nat)
    requires 0 < p && LineStart(s, p) && k < |Split('\n', s)| && Split('\n', s[p..]) == Split('\n', s)[k..]
    ensures k > 0
  {
    SplitAt('\n', s, p);
  }

  lemma SuffixHasFewerBytes(s: string, i: nat, j: nat)
    requires i <= j <= |s|
    ensures Bytes(s[j..]) <= Bytes(s[i..])
  {
    assert s[i..] == s[i..j] + s[j..];
    BytesConcat(s[i..j], s[j..]);
  }

  /**
    The comment promises the newest lines that fit within the target.  The scan also counts the
    line end that is not written after the last kept line, so it keeps them exactly when no run of
    last lines has the target size to the byte.
   */
  lemma TrimKeepsPromiseIff(s: string, budget: nat)
    requires EndsLine(s) && budget > 0
    ensures LongestLines(s, Join('\n', Kept(Split('\n', s), budget)), budget)
      <==> forall j: nat :: LineStart(s, j) ==> Bytes(s[j..]) != budget
  {
    var r := Join('\n', Kept(Split('\n', s), budget));
    KeptIsLongest(s, budget);
    var p: nat :| IsCut(s, r, budget - 1, p);
    if LongestLines(s, r, budget) {
      var q: nat :| IsCut(s, r, budget, q);
      forall j: nat | LineStart(s, j)
        ensures Bytes(s[j..]) != budget
      {
        if Bytes(s[j..]) <= budget {
          SuffixHasFewerBytes(s, q, j);
        }
      }
    }
    if forall j: nat :: LineStart(s, j) ==> Bytes(s[j..]) != budget {
      assert IsCut(s, r, budget, p);
    }
  }

  function Repeat(c: char, n: nat): (s: string)
    ensures |s| == n && forall i :: 0 <= i < n ==> s[i] == c
  {
    if n == 0 then "" else [c] + Repeat(c, n - 1)
  }

  lemma {:induction false} BytesOfAscii(s: string)
    requires forall i :: 0 <= i < |s| ==> s[i] as int < 0x80
    ensures Bytes(s) == |s|
  {
    if s != "" {
      BytesOfAscii(s[1..]);
    }
  }

  /** A last line that fills the target to the byte is dropped, and the log with it. */
  lemma LineOfTargetSizeIsLost(head: string, line: string)
    requires EndsLine(head) && Bytes(line) + 1 == TRIM_TARGET_BYTES
    requires forall i :: 0 <= i < |line| ==> line[i] != '\n'
    ensures Kept(Split('\n', head + line + ['\n']), TRIM_TARGET_BYTES) == [""]
  {
    var s := head + line + ['\n'];
    SplitAt('\n', s, |s|);
    assert s[|s|..] == "" && s[..|s| - 1] == head + line;
    SplitAt('\n', head + line, |head|);
    assert (head + line)[|head|..] == line;
    SplitOfOne('\n', line);
    var lines := Split('\n', s);
    var before := Split('\n', (head + line)[..|head| - 1]);
    var init := before + [line];
    assert lines == init + [""];
    assert init[|init| - 1] == line && lines[..|lines| - 1] == init && lines[|lines| - 1] == "";
    KeptSnoc(init, "", TRIM_TARGET_BYTES);
    assert Kept(init, TRIM_TARGET_BYTES - 1) == [];
  }

  lemma KeptSnoc(init: seq<string>, last: string, budget: int)
    requires Bytes(last) + 1 <= budget
    ensures Kept(init + [last], budget) == Kept(init, budget - Bytes(last) - 1) + [last]
  {
    assert (init + [last])[..|init|] == init;
  }

  /** The promise is broken for actual sizes: such a log, once over 1 MB, is trimmed to nothing. */
  lemma TrimCanLoseEverything(head: string, line: string)
    requires EndsLine(head) && Bytes(head) > MAX_LOG_SIZE_BYTES - TRIM_TARGET_BYTES
    requires Bytes(line) + 1 == TRIM_TARGET_BYTES && forall i :: 0 <= i < |line| ==> line[i] != '\n'
    ensures var s := head + line + ['\n'];
      Bytes(s) > MAX_LOG_SIZE_BYTES && Trimmed(s) == "" && !LongestLines(s, Trimmed(s), TRIM_TARGET_BYTES)
  {
    var s := head + line + ['\n'];
    var last := line + ['\n'];
    LineOfTargetSizeIsLost(head, line);
    assert s == head + last && s[|head|..] == last;
    BytesConcat(head, last);
    BytesConcat(line, ['\n']);
    assert Bytes(['\n']) == 1;
    assert LineStart(s, |head|);
    TrimKeepsPromiseIff(s, TRIM_TARGET_BYTES);
  }

  lemma SuchALogExists(n: nat, m: nat)
    requires n == 500000 && m == 629144
    ensures var head, line := Repeat('a', n) + ['\n'], Repeat('b', m);
      Bytes(head + line + ['\n']) > MAX_LOG_SIZE_BYTES && Trimmed(head + line + ['\n']) == ""
  {
    var head, line := Repeat('a', n) + ['\n'], Repeat('b', m);
    BytesOfAscii(head);
    BytesOfAscii(line);
    TrimCanLoseEverything(head, line);
  }

  // ---------------------------------------------------------------- every sequence of writes

  /** What one write appends: the formatted entries, one a line. */
  function Text(entries: seq<string>): string {
    if entries == [] then "" else Join('\n', entries) + ['\n']
  }

  function AfterWrite(content: string, entries: seq<string>): string {
    if entries == [] then content else Trimmed(content + Text(entries))
  }

  predicate Trims(content: string, entries: seq<string>) {
    entries != [] && Bytes(content + Text(entries)) > MAX_LOG_SIZE_BYTES
  }

  /** The file after some writes, the text they appended, and how many of them trimmed. */
  function Exec(content: string, writes: seq<seq<string>>): string {
    if writes == [] then content
    else AfterWrite(Exec(content, writes[..|writes| - 1]), writes[|writes| - 1])
  }

  function Appended(writes: seq<seq<string>>): string {
    if writes == [] then "" else Appended(writes[..|writes| - 1]) + Text(writes[|writes| - 1])
  }

  function TrimCount(content: string, writes: seq<seq<string>>): nat {
    if writes == [] then 0
    else
      var init := writes[..|writes| - 1];
      TrimCount(content, init) + if Trims(Exec(content, init), writes[|writes| - 1]) then 1 else 0
  }

  /** r is the end of s, from the start of a line. */
  ghost predicate NewestLines(s: string, r: string) {
    exists k: nat :: LineStart(s, k) && r == s[k..]
  }

  lemma LineStartWithin(s: string, k: nat, p: nat)
    requires LineStart(s, k) && LineStart(s[k..], p)
    ensures LineStart(s, k + p) && s[k..][p..] == s[k + p..]
  {
    assert p > 0 ==> s[k..][p - 1] == s[k + p - 1];
  }

  lemma NewestOfNewest(s: string, r: string, t: string)
    requires NewestLines(s, r) && NewestLines(r, t)
    ensures NewestLines(s, t)
  {
    var k: nat :| LineStart(s, k) && r == s[k..];
    var p: nat :| LineStart(r, p) && t == r[p..];
    LineStartWithin(s, k, p);
  }

  lemma NewestAfterAppend(s: string, r: string, text: string)
    requires NewestLines(s, r)
    ensures NewestLines(s + text, r + text)
  {
    var k: nat :| LineStart(s, k) && r == s[k..];
    assert LineStart(s + text, k) && r + text == (s + text)[k..];
  }

  lemma LongestIsNewest(s: string, r: string, limit: nat)
    requires LongestLines(s, r, limit)
    ensures NewestLines(s, r) && Bytes(r) <= limit
  {
    var k: nat :| IsCut(s, r, limit, k);
    assert LineStart(s, k) && r == s[k..];
  }

  /** What one trim does to a text that ends a line. */
  lemma TrimFacts(s: string)
    requires EndsLine(s)
    ensures NewestLines(s, Trimmed(s)) && Bytes(Trimmed(s)) <= MAX_LOG_SIZE_BYTES
    ensures Bytes(s) > MAX_LOG_SIZE_BYTES ==> Bytes(Trimmed(s)) < TRIM_TARGET_BYTES
  {
    if Bytes(s) <= MAX_LOG_SIZE_BYTES {
      assert LineStart(s, 0) && s == s[0..];
    } else {
      KeptIsLongest(s, TRIM_TARGET_BYTES);
      LongestIsNewest(s, Join('\n', Kept(Split('\n', s), TRIM_TARGET_BYTES)), TRIM_TARGET_BYTES - 1);
    }
  }

  lemma WriteFacts(all: string, content: string, entries: seq<string>)
    requires NewestLines(all, content)
    ensures NewestLines(all + Text(entries), AfterWrite(content, entries))
    ensures entries != [] ==> Bytes(AfterWrite(content, entries)) <= MAX_LOG_SIZE_BYTES
    ensures Bytes(AfterWrite(content, entries)) + (if Trims(content, entries) then 419433 else 0)
         <= Bytes(content) + Bytes(Text(entries))
  {
    if entries == [] {
      assert all + Text(entries) == all;
    } else {
      var s := content + Text(entries);
      NewestAfterAppend(all, content, Text(entries));
      TrimFacts(s);
      NewestOfNewest(all + Text(entries), s, Trimmed(s));
      BytesConcat(content, Text(entries));
    }
  }

  predicate WroteSomething(writes: seq<seq<string>>) {
    writes != [] && (writes[|writes| - 1] != [] || WroteSomething(writes[..|writes| - 1]))
  }

  lemma Regroup(a: string, b: string, c: string)
    ensures a + b + c == a + (b + c)
  {
  }

  lemma {:induction false} FileIsNewest(content: string, writes: seq<seq<string>>)
    ensures NewestLines(content + Appended(writes), Exec(content, writes))
  {
    if writes == [] {
      assert content + Appended(writes) == content;
      assert LineStart(content, 0) && content == content[0..];
    } else {
      var init, last := writes[..|writes| - 1], writes[|writes| - 1];
      FileIsNewest(content, init);
      WriteFacts(content + Appended(init), Exec(content, init), last);
      Regroup(content, Appended(init), Text(last));
    }
  }

  lemma {:induction false} FileIsSmall(content: string, writes: seq<seq<string>>)
    requires Bytes(content) <= MAX_LOG_SIZE_BYTES || WroteSomething(writes)
    ensures Bytes(Exec(content, writes)) <= MAX_LOG_SIZE_BYTES
  {
    if writes != [] {
      var init, last := writes[..|writes| - 1], writes[|writes| - 1];
      if last == [] {
        FileIsSmall(content, init);
      } else {
        FileIsNewest(content, init);
        WriteFacts(content + Appended(init), Exec(content, init), last);
      }
    }
  }

  /**
    After any sequence of writes the file is, from the start of a line on, the end of all the text
    it ever received, and it is at most 1 MB as soon as something was written.
   */
  lemma LogIsNewestText(content: string, writes: seq<seq<string>>)
    ensures NewestLines(content + Appended(writes), Exec(content, writes))
    ensures WroteSomething(writes) ==> Bytes(Exec(content, writes)) <= MAX_LOG_SIZE_BYTES
  {
    FileIsNewest(content, writes);
    if WroteSomething(writes) {
      FileIsSmall(content, writes);
    }
  }

  /**
    Trimming to 60 % avoids constant trimming: every trim is paid for by 419433 bytes that were in
    the file at first or were appended since.
   */
  lemma {:induction false} TrimsAreRare(content: string, writes: seq<seq<string>>)
    ensures Bytes(Exec(content, writes)) + 419433 * TrimCount(content, writes)
         <= Bytes(content) + Bytes(Appended(writes))
  {
    if writes != [] {
      var init, last := writes[..|writes| - 1], writes[|writes| - 1];
      TrimsAreRare(content, init);
      FileIsNewest(content, init);
      WriteFacts(content + Appended(init), Exec(content, init), last);
      BytesConcat(Appended(init), Text(last));
    }
  }

  /** A trim keeps the longest whole lines with one byte less than the target. */
  lemma TrimmedIsLongest(s: string)
    requires EndsLine(s)
    ensures if Bytes(s) <= 1048576 then Trimmed(s) == s else LongestLines(s, Trimmed(s), 629144)
  {
    KeptIsLongest(s, TRIM_TARGET_BYTES);
  }

  // ---------------------------------------------------------------- entries and lines

  /** The lines of a text that ends a line or is empty. */
  function Lines(s: string): seq<string> {
    Split('\n', s)[..|Split('\n', s)| - 1]
  }

  predicate WholeLines(s: string) {
    s == "" || EndsLine(s)
  }

  lemma LinesThenNothing(s: string)
    requires WholeLines(s)
    ensures Split('\n', s) == Lines(s) + [""]
  {
    if s != "" {
      LastLineIsEmpty(s);
    }
    var pieces := Split('\n', s);
    assert pieces == pieces[..|pieces| - 1] + pieces[|pieces| - 1..];
  }

  lemma LinesConcat(a: string, b: string)
    requires WholeLines(a) && WholeLines(b)
    ensures WholeLines(a + b) && Lines(a + b) == Lines(a) + Lines(b)
  {
    LinesThenNothing(a);
    LinesThenNothing(b);
    if a == "" {
      assert a + b == b;
    } else {
      SplitAt('\n', a + b, |a|);
      SplitAt('\n', a, |a|);
      assert (a + b)[..|a| - 1] == a[..|a| - 1] && (a + b)[|a|..] == b && a[|a|..] == "";
      assert Lines(a) == Split('\n', a[..|a| - 1]);
    }
  }

  lemma LinesOfText(entries: seq<string>)
    requires NoneHas('\n', entries)
    ensures WholeLines(Text(entries)) && Lines(Text(entries)) == entries
  {
    if entries != [] {
      var t := Text(entries);
      SplitJoin('\n', entries);
      SplitAt('\n', t, |t|);
      assert t[..|t| - 1] == Join('\n', entries) && t[|t|..] == "";
    }
  }

  /** All entries of some writes, in sequence. */
  function AllEntries(writes: seq<seq<string>>): seq<string> {
    if writes == [] then [] else AllEntries(writes[..|writes| - 1]) + writes[|writes| - 1]
  }

  ghost predicate OneLineEach(writes: seq<seq<string>>) {
    forall i :: 0 <= i < |writes| ==> NoneHas('\n', writes[i])
  }

  lemma {:induction false} LinesOfAppended(writes: seq<seq<string>>)
    requires OneLineEach(writes)
    ensures WholeLines(Appended(writes)) && Lines(Appended(writes)) == AllEntries(writes)
  {
    if writes != [] {
      var init, last := writes[..|writes| - 1], writes[|writes| - 1];
      LinesOfAppended(init);
      LinesOfText(last);
      LinesConcat(Appended(init), Text(last));
    }
  }

  lemma LinesOfSuffix(s: string, r: string) returns (k: nat)
    requires WholeLines(s) && NewestLines(s, r)
    ensures k <= |Lines(s)| && Split('\n', r) == Lines(s)[k..] + [""]
  {
    var p: nat :| LineStart(s, p) && r == s[p..];
    k := LinesFrom(s, p);
    LinesThenNothing(s);
  }

  /**
    After any sequence of writes the lines of the file are its old lines and all entries ever
    written, each a line of its own and in sequence, from some entry on.
   */
  lemma FileHoldsNewestEntries(content: string, writes: seq<seq<string>>)
    requires WholeLines(content) && OneLineEach(writes)
    ensures var all := Lines(content) + AllEntries(writes);
      exists k :: 0 <= k <= |all| && Split('\n', Exec(content, writes)) == all[k..] + [""]
  {
    LinesOfAppended(writes);
    LinesConcat(content, Appended(writes));
    FileIsNewest(content, writes);
    var k := LinesOfSuffix(content + Appended(writes), Exec(content, writes));
  }

  lemma {:induction false} NothingLostIfItFits(content: string, writes: seq<seq<string>>)
    requires Bytes(content + Appended(writes)) <= 1048576
    ensures Exec(content, writes) == content + Appended(writes)
  {
    if writes == [] {
      assert content + Appended(writes) == content;
    } else {
      var init, last := writes[..|writes| - 1], writes[|writes| - 1];
      Regroup(content, Appended(init), Text(last));
      BytesConcat(content + Appended(init), Text(last));
      NothingLostIfItFits(content, init);
    }
  }

  /** Nothing is lost exactly when all of it fits into 1 MB. */
  lemma NothingLostIffItFits(content: string, writes: seq<seq<string>>)
    requires WroteSomething(writes)
    ensures Exec(content, writes) == content + Appended(writes) <==> Bytes(content + Appended(writes)) <= 1048576
  {
    FileIsSmall(content, writes);
    if Bytes(content + Appended(writes)) <= 1048576 {
      NothingLostIfItFits(content, writes);
    }
  }

  // ---------------------------------------------------------------- the files

  datatype LogSource = BrowserConsole | NetworkRequests | SessionReplay

  function ContentOf(files: map<LogSource, string>, source: LogSource): string {
    if source in files then files[source] else ""
  }

  ghost predicate Capped(received: string, content: string) {
    NewestLines(received, content) && Bytes(content) <= MAX_LOG_SIZE_BYTES
  }

  ghost predicate AllCapped(received: map<LogSource, string>, files: map<LogSource, string>) {
    forall source :: Capped(ContentOf(received, source), ContentOf(files, source))
  }

  lemma UpdateKeepsCapped(received: map<LogSource, string>, files: map<LogSource, string>,
                          source: LogSource, r: string, c: string)
    requires AllCapped(received, files) && Capped(r, c)
    ensures AllCapped(received[source := r], files[source := c])
  {
    var received', files' := received[source := r], files[source := c];
    forall other ensures Capped(ContentOf(received', other), ContentOf(files', other)) {
      if other != source {
        assert Capped(ContentOf(received, other), ContentOf(files, other));
      }
    }
  }

  lemma WriteKeepsCapped(received: map<LogSource, string>, files: map<LogSource, string>,
                         source: LogSource, entries: seq<string>)
    requires AllCapped(received, files) && entries != []
    ensures AllCapped(received[source := ContentOf(received, source) + Text(entries)],
                      files[source := AfterWrite(ContentOf(files, source), entries)])
  {
    var all, content := ContentOf(received, source), ContentOf(files, source);
    assert Capped(all, content);
    WriteFacts(all, content, entries);
    UpdateKeepsCapped(received, files, source, all + Text(entries), AfterWrite(content, entries));
  }

  lemma UpdateTwice<K, V>(m: map<K, V>, k: K, v: V, w: V)
    ensures m[k := v][k := w] == m[k := w]
  {
  }

  /** The log directory; a file that is not in the map does not exist. */
  class LogDirectory {
    var files: map<LogSource, string>
    ghost var received: map<LogSource, string>

    ghost predicate Valid()
      reads this
    {
      AllCapped(received, files)
    }

    constructor ()
      ensures Valid() && files == map[]
    {
      files := map[];
      received := map[];
      assert LineStart("", 0) && "" == ""[0..];
    }

    /** maxSize decides whether to trim; the size trimmed to is the constant. */
    method TrimLogFile(source: LogSource, maxSize: nat)
      modifies this`files
      ensures source in old(files) && Bytes(old(files)[source]) > maxSize ==>
                files == old(files)[source := Join('\n', Kept(Split('\n', old(files)[source]), TRIM_TARGET_BYTES))]
      ensures source !in old(files) || Bytes(old(files)[source]) <= maxSize ==> files == old(files)
    {
      if source !in files || Bytes(files[source]) <= maxSize {
        return;
      }
      var keptLines := KeepNewest(Split('\n', files[source]), TRIM_TARGET_BYTES);
      files := files[source := Join('\n', keptLines)];
    }

    /** entries are the formatted lines, time stamp and JSON. */
    method WriteToLogFile(source: LogSource, entries: seq<string>)
      requires Valid()
      modifies this
      ensures Valid()
      ensures files == if entries == [] then old(files)
                       else old(files)[source := AfterWrite(ContentOf(old(files), source), entries)]
      ensures received == if entries == [] then old(received)
                          else old(received)[source := ContentOf(old(received), source) + Text(entries)]
    {
      if entries == [] {
        return;
      }
      WriteKeepsCapped(received, files, source, entries);
      received := received[source := ContentOf(received, source) + Text(entries)];
      var appended := ContentOf(files, source) + Text(entries);
      UpdateTwice(files, source, appended, Join('\n', Kept(Split('\n', appended), TRIM_TARGET_BYTES)));
      files := files[source := appended];
      TrimLogFile(source, MAX_LOG_SIZE_BYTES);
    }
  }
}
