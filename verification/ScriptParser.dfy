/**
 * Script splitting and comment stripping (script/parser.ts), over the scanner's
 * classification of characters.
 */
module ScriptParser {
  import opened Scanner
  import opened WireTypes
  import opened Text

  type Span = (nat, nat)

  datatype Fault = Unterminated | NoTerminator | NoNewTerminator

  datatype Scan<+T> = Done(value: T) | Failed(fault: Fault, line: nat, column: nat)

  /** Line and column, from 1, of position `i`. */
  function LineCol(text: string, i: nat): (nat, nat)
    requires i <= |text|
  {
    if i == 0 then (1, 1)
    else
      var (line, column) := LineCol(text, i - 1);
      if text[i - 1] == '\n' then (line + 1, 1) else (line, column + 1)
  }

  function Fail<T>(fault: Fault, text: string, at: nat): Scan<T>
    requires at <= |text|
  {
    Failed(fault, LineCol(text, at).0, LineCol(text, at).1)
  }

  method LineColAt(text: string, index: nat) returns (line: nat, column: nat)
    requires index <= |text|
    ensures (line, column) == LineCol(text, index)
  {
    line, column := Advance(text, 0, 1, 1, index);
  }

  /** Line and column after `count` more characters. */
  method Advance(text: string, i: nat, line: nat, column: nat, count: nat) returns (line': nat, column': nat)
    requires i + count <= |text| && (line, column) == LineCol(text, i)
    ensures (line', column') == LineCol(text, i + count)
  {
    line', column' := line, column;
    for k := 0 to count
      invariant (line', column') == LineCol(text, i + k)
    {
      if text[i + k] == '\n' { line', column' := line' + 1, 1; } else { column' := column' + 1; }
    }
  }

  /** A line is one more than the newlines before, a column one more than the characters since the last. */
  lemma {:induction false} LineColMeaning(text: string, i: nat)
    requires i <= |text|
    ensures var (line, column) := LineCol(text, i);
      && line == 1 + multiset(text[..i])['\n']
      && 1 <= column <= i + 1
      && '\n' !in text[i + 1 - column..i]
      && (column <= i ==> text[i - column] == '\n')
  {
    if i > 0 {
      LineColMeaning(text, i - 1);
      assert text[..i] == text[..i - 1] + [text[i - 1]];
      var column := LineCol(text, i).1;
      if text[i - 1] != '\n' { assert text[i + 1 - column..i] == text[i + 1 - column..i - 1] + [text[i - 1]]; }
    }
  }

  // ---- walking over regions -------------------------------------------------------------

  /** Classes from position `i` on, as a scan that starts there sees them. */
  function MarksFrom(text: string, i: nat): (m: seq<Mark>)
    requires i <= |text|
    ensures |m| == |text|
  {
    Repeat(Code, i) + Marks(text[i..])
  }

  /** A scan is at position `i`, between regions. */
  ghost predicate At(text: string, m: seq<Mark>, i: nat) {
    |m| == |text| && i <= |text| && m[i..] == Marks(text[i..])
  }

  /** One step of a scan: over a plain character, or over a whole region. */
  lemma WalkStep(text: string, m: seq<Mark>, i: nat)
    requires At(text, m, i) && i < |text|
    ensures var r := RegionOf(text, i);
      if r.None? then m[i] == Code && At(text, m, i + 1)
      else
        && At(text, m, r.value.end)
        && forall k | i <= k < r.value.end ::
             m[k] == if !r.value.terminated then Open else if IsComment(r.value.kind) then Comment else Quoted
  {
    hide Lex, Marks;
    var s := text[i..];
    MarksSplit(s);
    var n := HeadLen(s);
    assert forall k | i <= k < i + n :: m[k] == m[i..][k - i];
    assert m[i + n..] == m[i..][n..] && text[i + n..] == s[n..];
  }

  // ---- comments -------------------------------------------------------------------------

  predicate Ascending(ranges: seq<Span>, from: nat, to: nat) {
    && (forall i | 0 <= i < |ranges| :: from <= ranges[i].0 < ranges[i].1 <= to)
    && (forall i, j | 0 <= i < j < |ranges| :: ranges[i].1 <= ranges[j].0)
  }

  predicate Covered(ranges: seq<Span>, k: int) { exists i :: 0 <= i < |ranges| && ranges[i].0 <= k < ranges[i].1 }

  /** The comments are exactly the ranges, in order and apart from each other. */
  ghost predicate AreComments(ranges: seq<Span>, m: seq<Mark>, to: nat)
    requires to <= |m|
  {
    Ascending(ranges, 0, to) && forall k | 0 <= k < to :: m[k] == Comment <==> Covered(ranges, k)
  }

  /** The error is the one region that does not end, and every earlier character is fine. */
  ghost predicate FailsAt<T>(r: Scan<T>, text: string, m: seq<Mark>) {
    |m| == |text| && exists at: nat ::
      at < |text| && m[at] == Open && Open !in m[..at] && r == Fail(Unterminated, text, at)
  }

  method CommentRanges(sql: string) returns (r: Scan<seq<Span>>)
    ensures if WellLexed(sql) then r.Done? && AreComments(r.value, Marks(sql), |sql|)
            else FailsAt(r, sql, Marks(sql))
  {
    hide Lex, Marks;
    ghost var m := Marks(sql);
    var ranges: seq<Span>, i := [], 0;
    assert m[0..] == m && sql[0..] == sql;
    while i < |sql|
      invariant At(sql, m, i) && Open !in m[..i] && AreComments(ranges, m, i)
    {
      WalkStep(sql, m, i);
      var region := RegionAt(sql, i);
      if region.None? {
        i := i + 1;
      } else {
        var x := region.value;
        if !x.terminated {
          var line, column := LineColAt(sql, i);
          assert m[i] in m;
          return Failed(Unterminated, line, column);
        }
        if IsComment(x.kind) { ranges := Extend(ranges, m, i, x.end); } else { NotExtended(ranges, m, i, x.end); }
        i := x.end;
      }
    }
    assert m[..i] == m;
    r := Done(ranges);
  }

  method Extend(ranges: seq<Span>, ghost m: seq<Mark>, i: nat, end: nat) returns (r: seq<Span>)
    requires i < end <= |m| && AreComments(ranges, m, i) && forall k | i <= k < end :: m[k] == Comment
    ensures AreComments(r, m, end) && r == ranges + [(i, end)]
  {
    r := ranges + [(i, end)];
    forall k | 0 <= k < end
      ensures m[k] == Comment <==> Covered(r, k)
    {
      if k < i {
        if Covered(ranges, k) {
          var j :| 0 <= j < |ranges| && ranges[j].0 <= k < ranges[j].1;
          assert r[j] == ranges[j];
        }
        if Covered(r, k) {
          var j :| 0 <= j < |r| && r[j].0 <= k < r[j].1;
          assert j < |ranges| && r[j] == ranges[j];
        }
      } else {
        assert r[|ranges|] == (i, end);
      }
    }
  }

  lemma NotExtended(ranges: seq<Span>, m: seq<Mark>, i: nat, end: nat)
    requires i < end <= |m| && AreComments(ranges, m, i) && forall k | i <= k < end :: m[k] != Comment
    ensures AreComments(ranges, m, end)
  {
  }

  /** Blanks every character but newlines. */
  function Spaces(s: string): (t: string)
    ensures |t| == |s|
  {
    seq(|s|, k requires 0 <= k < |s| => if IsNewline(s[k]) then s[k] else ' ')
  }

  method StripComments(sql: string) returns (r: Scan<string>)
    ensures if WellLexed(sql) then r == Done(Blank(sql)) else FailsAt(r, sql, Marks(sql))
  {
    hide Lex, Marks, BlankBy;
    var found := CommentRanges(sql);
    if found.Failed? { return Failed(found.fault, found.line, found.column); }
    var ranges := found.value;
    ghost var m := Marks(sql);
    var out, prev := "", 0;
    for i := 0 to |ranges|
      invariant prev == (if i == 0 then 0 else ranges[i - 1].1) <= |sql|
      invariant out == BlankBy(sql, m)[..prev]
    {
      var (s, e) := ranges[i];
      BlankBetween(sql, m, ranges, i, prev);
      ghost var t := BlankBy(sql, m);
      assert t[..e] == t[..prev] + t[prev..e];
      out := out + (sql[prev..s] + Spaces(sql[s..e]));
      prev := e;
    }
    BlankAfter(sql, m, ranges, prev);
    assert BlankBy(sql, m) == BlankBy(sql, m)[..prev] + BlankBy(sql, m)[prev..];
    r := Done(out + sql[prev..]);
  }

  /** Between two neighbouring comments, before the first and after the last, there is none. */
  lemma Gap(ranges: seq<Span>, m: seq<Mark>, i: nat, k: nat)
    requires AreComments(ranges, m, |m|) && i <= |ranges|
    requires (if i == 0 then 0 else ranges[i - 1].1) <= k < (if i == |ranges| then |m| else ranges[i].0)
    ensures m[k] != Comment
  {
  }

  lemma BlankBetween(sql: string, m: seq<Mark>, ranges: seq<Span>, i: nat, prev: nat)
    requires |m| == |sql| && AreComments(ranges, m, |sql|) && i < |ranges|
    requires prev == if i == 0 then 0 else ranges[i - 1].1
    ensures prev <= ranges[i].0
    ensures BlankBy(sql, m)[prev..ranges[i].1] == sql[prev..ranges[i].0] + Spaces(sql[ranges[i].0..ranges[i].1])
  {
    var (s, e) := ranges[i];
    if i > 0 { assert ranges[i - 1].1 <= ranges[i].0; }
    forall k | prev <= k < s
      ensures m[k] != Comment
    {
      Gap(ranges, m, i, k);
    }
    forall k | s <= k < e
      ensures m[k] == Comment
    {
      assert Covered(ranges, k);
    }
    hide AreComments;
    var t := BlankBy(sql, m);
    assert t[prev..e] == t[prev..s] + t[s..e];
    assert t[prev..s] == sql[prev..s];
    assert t[s..e] == Spaces(sql[s..e]);
  }

  lemma BlankAfter(sql: string, m: seq<Mark>, ranges: seq<Span>, prev: nat)
    requires |m| == |sql| && AreComments(ranges, m, |sql|) && prev == if ranges == [] then 0 else ranges[|ranges| - 1].1
    ensures BlankBy(sql, m)[prev..] == sql[prev..]
  {
    forall k | prev <= k < |sql|
      ensures m[k] != Comment
    {
      Gap(ranges, m, |ranges|, k);
    }
  }

  // ---- splitting --------------------------------------------------------------------------

  /** Whitespace and comments. */
  predicate Trivia(text: string, m: seq<Mark>, k: nat)
    requires k < |text| == |m|
  {
    m[k] == Comment || (m[k] == Code && IsSpace(text[k]))
  }

  predicate StartsAt(text: string, i: nat, term: string)
    requires i <= |text|
  {
    i + |term| <= |text| && text[i..i + |term|] == term
  }

  /** A terminator outside every region, or a region that never ends. */
  predicate Stop(text: string, m: seq<Mark>, k: nat, term: string)
    requires k < |text| == |m|
  {
    m[k] == Open || (m[k] == Code && term != "" && StartsAt(text, k, term))
  }

  function SkipTrivia(text: string, m: seq<Mark>, i: nat): (k: nat)
    requires i <= |text| == |m|
    ensures i <= k <= |text| && (k < |text| ==> !Trivia(text, m, k))
    ensures forall j | i <= j < k :: Trivia(text, m, j)
    decreases |text| - i
  {
    if i < |text| && Trivia(text, m, i) then SkipTrivia(text, m, i + 1) else i
  }

  function StopAt(text: string, m: seq<Mark>, i: nat, term: string): (k: nat)
    requires i <= |text| == |m|
    ensures i <= k <= |text| && (k < |text| ==> Stop(text, m, k, term))
    ensures k < |text| && m[k] != Open ==> k + |term| <= |text|
    ensures i < |text| && m[i] == Open ==> k == i
    ensures forall j | i <= j < k :: !Stop(text, m, j, term)
    decreases |text| - i
  {
    if i == |text| || Stop(text, m, i, term) then i else StopAt(text, m, i + 1, term)
  }

  /** The first occurrence of the terminator, whatever it is in; SET TERM looks no further. */
  function FindTerm(text: string, i: nat, term: string): (k: nat)
    requires i <= |text|
    ensures i <= k <= |text| && (k < |text| ==> StartsAt(text, k, term) && k + |term| <= |text|)
    decreases |text| - i
  {
    if i == |text| || StartsAt(text, i, term) then i else FindTerm(text, i + 1, term)
  }

  predicate IsWord(c: char) { IsDigit(c) || 'a' <= c <= 'z' || 'A' <= c <= 'Z' || c == '_' }

  function SpaceLen(s: string): (n: nat)
    ensures n <= |s|
  {
    if s == [] || !IsSpace(s[0]) then 0 else 1 + SpaceLen(s[1..])
  }

  /** How much of `s` the pattern "set, spaces, term, word boundary" matches. */
  function SetTerm(s: string): (r: Option<nat>)
    ensures r.Some? ==> 0 < r.value <= |s|
  {
    if |s| < 3 || Lower(s[..3]) != "set" then None
    else
      var t := 3 + SpaceLen(s[3..]);
      if t == 3 || |s| < t + 4 || Lower(s[t..t + 4]) != "term" || (|s| > t + 4 && IsWord(s[t + 4])) then None
      else Some(t + 4)
  }

  /** Only twelve characters are looked at to tell. */
  predicate IsSetTerm(text: string, k: nat)
    requires k <= |text|
  {
    SetTerm(text[k..Min(k + 12, |text|)]).Some?
  }

  function NewTerminator(command: string): string
  {
    var r := SetTerm(command);
    Trim(if r.Some? then command[r.value..] else command)
  }

  function Prepend(spans: seq<Span>, r: Scan<seq<Span>>): Scan<seq<Span>>
  {
    if r.Done? then Done(spans + r.value) else r
  }

  /** The next piece of a script: nothing, an error, a SET TERM, or a statement from `start` to `end`. */
  datatype Piece =
    | Nothing
    | Broken(fault: Fault, at: nat)
    | Switch(next: nat, term: string)
    | Body(start: nat, end: nat, next: nat)

  /**
   * After its trivia a statement runs to the first terminator that is code, unless
   * it is a SET TERM, which runs to the first terminator of any kind and replaces it.
   */
  function PieceAt(text: string, i: nat, term: string): (p: Piece)
    requires i <= |text|
    ensures p.Broken? ==> p.at <= |text|
    ensures p.Switch? ==> i < p.next <= |text|
    ensures p.Body? ==> i <= p.start <= p.end <= |text| && i < p.next <= |text|
  {
    var m := MarksFrom(text, i);
    var k := SkipTrivia(text, m, i);
    if k == |text| then Nothing
    else if m[k] == Open then Broken(Unterminated, k)
    else if IsSetTerm(text, k) then
      var j := FindTerm(text, k, term);
      if j == |text| then Broken(NoTerminator, k)
      else
        var rest := NewTerminator(text[k..j]);
        if rest == "" then Broken(NoNewTerminator, k) else CommandNotEmpty(text[k..j]); Switch(j + |term|, rest)
    else
      var e := StopAt(text, m, k, term);
      if e == |text| then Body(k, e, e)
      else if m[e] == Open then Broken(Unterminated, e)
      else Body(k, e, e + |term|)
  }

  lemma CommandNotEmpty(command: string)
    requires NewTerminator(command) != ""
    ensures command != ""
  {
  }

  function Parse(text: string, i: nat, term: string): Scan<seq<Span>>
    requires i <= |text|
    decreases |text| - i
  {
    if i == |text| then Done([])
    else
      match PieceAt(text, i, term)
      case Nothing => Done([])
      case Broken(fault, at) => Fail(fault, text, at)
      case Switch(next, term') => Parse(text, next, term')
      case Body(start, end, next) => Prepend(if start < end then [(start, end)] else [], Parse(text, next, term))
  }

  /** A parsed statement, its text trimmed and its position that of its first character. */
  datatype Statement = Statement(sql: string, line: nat, column: nat)

  function StatementOf(text: string, span: Span): Statement
    requires span.0 <= span.1 <= |text|
  {
    Statement(Trim(text[span.0..span.1]), LineCol(text, span.0).0, LineCol(text, span.0).1)
  }

  /** `r` is the parse of the script, statement by statement. */
  ghost predicate Renders(r: Scan<seq<Statement>>, text: string, parsed: Scan<seq<Span>>) {
    match parsed
    case Failed(fault, line, column) => r == Failed(fault, line, column)
    case Done(spans) => r.Done? && RendersAll(r.value, text, spans)
  }

  ghost predicate RendersAll(statements: seq<Statement>, text: string, spans: seq<Span>) {
    && |statements| == |spans|
    && forall i | 0 <= i < |spans| :: spans[i].0 <= spans[i].1 <= |text| && statements[i] == StatementOf(text, spans[i])
  }

  // ---- the splitter's loops -----------------------------------------------------------------

  /** Skips whitespace and comments; stops in front of a comment that never ends, and says so. */
  method ConsumeTrivia(text: string, i: nat) returns (k: nat, open: bool)
    requires i <= |text|
    ensures k == SkipTrivia(text, MarksFrom(text, i), i)
    ensures open ==> k < |text| && MarksFrom(text, i)[k] == Open
    ensures At(text, MarksFrom(text, i), k)
  {
    hide Lex, Marks, MarksFrom, Trivia;
    ghost var m := MarksFrom(text, i);
    StartsScan(text, i);
    k := i;
    while k < |text|
      invariant At(text, m, k) && i <= k && SkipTrivia(text, m, k) == SkipTrivia(text, m, i)
    {
      WalkStep(text, m, k);
      var region := RegionAt(text, k);
      if IsSpace(text[k]) {
        SpaceIsCode(text, k);
        OverTrivia(text, m, k, k + 1);
        k := k + 1;
      } else if region.Some? && IsComment(region.value.kind) {
        if !region.value.terminated {
          NotTrivia(text, m, k);
          return k, true;
        }
        OverTrivia(text, m, k, region.value.end);
        k := region.value.end;
      } else {
        NotTrivia(text, m, k);
        return k, false;
      }
    }
    return k, false;
  }

  lemma StartsScan(text: string, i: nat)
    requires i <= |text|
    ensures At(text, MarksFrom(text, i), i)
  {
  }

  lemma SpaceIsCode(text: string, k: nat)
    requires k < |text| && IsSpace(text[k])
    ensures RegionOf(text, k).None?
  {
    NoRegion(text[k..]);
  }

  lemma {:induction false} OverTrivia(text: string, m: seq<Mark>, k: nat, end: nat)
    requires k <= end <= |text| == |m|
    requires forall j | k <= j < end :: m[j] == Comment || (m[j] == Code && IsSpace(text[j]))
    ensures SkipTrivia(text, m, k) == SkipTrivia(text, m, end)
    decreases end - k
  {
    if k < end { OverTrivia(text, m, k + 1, end); }
  }

  lemma NotTrivia(text: string, m: seq<Mark>, k: nat)
    requires k < |text| == |m| && m[k] != Comment && !(m[k] == Code && IsSpace(text[k]))
    ensures SkipTrivia(text, m, k) == k
  {
  }

  /** Scans a statement's body to its terminator. */
  method ConsumeBody(text: string, ghost m: seq<Mark>, start: nat, term: string)
    returns (e: nat, terminated: bool, open: bool, sawContent: bool)
    requires At(text, m, start) && start < |text| && !Trivia(text, m, start)
    ensures e == StopAt(text, m, start, term)
    ensures open <==> e < |text| && m[e] == Open
    ensures !open ==> (terminated <==> e < |text|) && (sawContent <==> start < e)
  {
    hide Lex, Marks, StopAt;
    e, sawContent := start, false;
    while e < |text|
      invariant At(text, m, e) && start <= e && StopAt(text, m, e, term) == StopAt(text, m, start, term)
      invariant sawContent <==> start < e
    {
      WalkStep(text, m, e);
      var region := RegionAt(text, e);
      if region.Some? {
        var x := region.value;
        if !x.terminated {
          StopsHere(text, m, e, term);
          return e, false, true, sawContent;
        }
        if !IsComment(x.kind) { sawContent := true; }
        OverBody(text, m, e, x.end, term);
        e := x.end;
      } else {
        if term != "" && StartsAt(text, e, term) {
          StopsHere(text, m, e, term);
          return e, true, false, sawContent;
        }
        if !IsSpace(text[e]) { sawContent := true; }
        OverBody(text, m, e, e + 1, term);
        e := e + 1;
      }
    }
    StopsHere(text, m, e, term);
    return e, false, false, sawContent;
  }

  lemma StopsHere(text: string, m: seq<Mark>, k: nat, term: string)
    requires k <= |text| == |m| && (k < |text| ==> Stop(text, m, k, term))
    ensures StopAt(text, m, k, term) == k
  {
  }

  lemma {:induction false} OverBody(text: string, m: seq<Mark>, k: nat, end: nat, term: string)
    requires k <= end <= |text| == |m| && forall j | k <= j < end :: !Stop(text, m, j, term)
    ensures StopAt(text, m, k, term) == StopAt(text, m, end, term)
    decreases end - k
  {
    if k < end { OverBody(text, m, k + 1, end, term); }
  }

  /** A bare scan for the terminator. */
  method ConsumeToTerm(text: string, k: nat, term: string) returns (j: nat)
    requires k <= |text|
    ensures j == FindTerm(text, k, term)
  {
    j := k;
    while j < |text| && !StartsAt(text, j, term)
      invariant k <= j <= |text| && FindTerm(text, j, term) == FindTerm(text, k, term)
    {
      j := j + 1;
    }
  }

  lemma SetTermIsCode(text: string, m: seq<Mark>, k: nat)
    requires At(text, m, k) && k < |text| && IsSetTerm(text, k)
    ensures m[k] == Code
  {
    var head := text[k..Min(k + 12, |text|)];
    assert Lower(head[..3])[0] == 's' && text[k] == head[0];
    NoRegion(text[k..]);
    WalkStep(text, m, k);
  }

  lemma StatementNotEmpty(text: string, m: seq<Mark>, k: nat, e: nat)
    requires At(text, m, k) && k < e <= |text| && !Trivia(text, m, k)
    ensures Trim(text[k..e]) != []
  {
    if IsSpace(text[k]) {
      SpaceIsCode(text, k);
      WalkStep(text, m, k);
      assert false;
    }
    TrimKeepsHead(text[k..e]);
  }

  lemma {:induction false} TrimKeepsHead(s: string)
    requires s != [] && !IsSpace(s[0])
    ensures Trim(s) != []
  {
    if IsSpace(s[|s| - 1]) { TrimKeepsHead(s[..|s| - 1]); }
  }

  lemma PrependTwice(a: seq<Span>, b: seq<Span>, r: Scan<seq<Span>>)
    ensures Prepend(a, Prepend(b, r)) == Prepend(a + b, r) && Prepend([], r) == r
  {
    if r.Done? { assert a + (b + r.value) == (a + b) + r.value && [] + r.value == r.value; }
  }

  /** One more piece parsed. */
  lemma ParseStep(text: string, i: nat, term: string, spans: seq<Span>)
    requires i < |text|
    ensures match PieceAt(text, i, term)
      case Nothing => Prepend(spans, Parse(text, i, term)) == Done(spans)
      case Broken(fault, at) => Prepend(spans, Parse(text, i, term)) == Fail(fault, text, at)
      case Switch(next, term') => Parse(text, i, term) == Parse(text, next, term')
      case Body(start, end, next) =>
        Prepend(spans, Parse(text, i, term)) ==
        Prepend(if start < end then spans + [(start, end)] else spans, Parse(text, next, term))
  {
    hide PieceAt;
    var p := PieceAt(text, i, term);
    assert spans + [] == spans;
    if p.Body? {
      PrependTwice(spans, if p.start < p.end then [(p.start, p.end)] else [], Parse(text, p.next, term));
    }
  }

  /** Finds the next piece, keeping line and column; `begin` is where its statement starts. */
  method NextPiece(text: string, i: nat, line: nat, column: nat, term: string)
    returns (p: Piece, begin: (nat, nat), line': nat, column': nat)
    requires i < |text| && (line, column) == LineCol(text, i)
    ensures p == PieceAt(text, i, term)
    ensures p.Broken? ==> (line', column') == LineCol(text, p.at)
    ensures p.Switch? ==> (line', column') == LineCol(text, p.next)
    ensures p.Body? ==> (line', column') == LineCol(text, p.next) && begin == LineCol(text, p.start)
    ensures p.Body? && p.start < p.end ==> Trim(text[p.start..p.end]) != []
  {
    hide Lex, Marks, MarksFrom, SkipTrivia, StopAt, FindTerm, LineCol, SetTerm, Trivia, Stop, At, NewTerminator,
      Trim, StartsAt;
    ghost var m := MarksFrom(text, i);
    var k, openComment := ConsumeTrivia(text, i);
    line', column' := Advance(text, i, line, column, k - i);
    begin := (line', column');
    if openComment { return Broken(Unterminated, k), begin, line', column'; }
    if k == |text| { return Nothing, begin, line', column'; }
    if IsSetTerm(text, k) {
      SetTermIsCode(text, m, k);
      var j := ConsumeToTerm(text, k, term);
      if j == |text| { return Broken(NoTerminator, k), begin, line', column'; }
      var rest := NewTerminator(text[k..j]);
      if rest == "" { return Broken(NoNewTerminator, k), begin, line', column'; }
      line', column' := Advance(text, k, line', column', j + |term| - k);
      return Switch(j + |term|, rest), begin, line', column';
    }
    var e, terminated, open, sawContent := ConsumeBody(text, m, k, term);
    if open {
      line', column' := Advance(text, k, line', column', e - k);
      return Broken(Unterminated, e), begin, line', column';
    }
    if sawContent { StatementNotEmpty(text, m, k, e); }
    var next := if terminated then e + |term| else e;
    line', column' := Advance(text, k, line', column', next - k);
    p := Body(k, e, next);
  }

  method ParseScript(script: string, terminator: string) returns (r: Scan<seq<Statement>>)
    ensures Renders(r, script, Parse(script, 0, terminator))
  {
    hide PieceAt, LineCol, Parse, Trim;
    var i: nat, line: nat, column: nat, term := 0, 1, 1, terminator;
    FirstPosition(script);
    var statements: seq<Statement> := [];
    ghost var spans: seq<Span> := [];
    PrependTwice([], [], Parse(script, 0, terminator));
    while i < |script|
      invariant 0 <= i <= |script| && (line, column) == LineCol(script, i)
      invariant RendersAll(statements, script, spans)
      invariant Parse(script, 0, terminator) == Prepend(spans, Parse(script, i, term))
      decreases |script| - i
    {
      ParseStep(script, i, term, spans);
      var p, begin;
      p, begin, line, column := NextPiece(script, i, line, column, term);
      match p {
        case Nothing => return Done(statements);
        case Broken(fault, at) => return Failed(fault, line, column);
        case Switch(next, term') => i, term := next, term';
        case Body(start, end, next) =>
          var sql := Trim(script[start..end]);
          if start < end && |sql| > 0 {
            statements := statements + [Statement(sql, begin.0, begin.1)];
            spans := spans + [(start, end)];
          }
          i := next;
      }
    }
    ParseEnds(script, term);
    assert spans + [] == spans;
    r := Done(statements);
  }

  lemma FirstPosition(text: string)
    ensures LineCol(text, 0) == (1, 1)
  {
  }

  lemma ParseEnds(text: string, term: string)
    ensures Parse(text, |text|, term) == Done([])
  {
  }

  // ---- what splitting means -----------------------------------------------------------------

  /** Cutting the whole text at one character, by the classes of its characters. */
  function Cut(text: string, m: seq<Mark>, i: nat, c: char): (spans: seq<Span>)
    requires i <= |text| == |m|
    decreases |text| - i
  {
    var k := SkipTrivia(text, m, i);
    if k == |text| then []
    else
      var e := StopAt(text, m, k, [c]);
      (if k < e then [(k, e)] else []) + (if e < |text| then Cut(text, m, e + 1, c) else [])
  }

  /** A terminator that counts. */
  predicate Terminates(text: string, m: seq<Mark>, k: nat, c: char)
    requires k < |text| == |m|
  {
    m[k] == Code && text[k] == c
  }

  /**
   * The cuts are the statements and nothing but: apart and in order, none holds a
   * counting terminator, each starts at its first character that matters and ends
   * at a counting terminator or with the text, and every character that matters is
   * in one, so the rest is whitespace, comments and terminators.
   */
  ghost predicate SplitsAt(spans: seq<Span>, text: string, m: seq<Mark>, i: nat, c: char)
    requires i <= |text| == |m|
  {
    && Ascending(spans, i, |text|)
    && (forall n | 0 <= n < |spans| ::
          && !Trivia(text, m, spans[n].0)
          && (spans[n].1 < |text| ==> Terminates(text, m, spans[n].1, c))
          && (forall k | spans[n].0 <= k < spans[n].1 :: !Terminates(text, m, k, c)))
    && (forall k | i <= k < |text| :: Trivia(text, m, k) || Terminates(text, m, k, c) || Covered(spans, k))
  }

  lemma StopIsTerminator(text: string, m: seq<Mark>, k: nat, c: char)
    requires k < |text| == |m| && m[k] != Open
    ensures Stop(text, m, k, [c]) <==> Terminates(text, m, k, c)
  {
    assert text[k..k + 1] == [text[k]];
  }

  lemma {:induction false} CutSplits(text: string, m: seq<Mark>, i: nat, c: char)
    requires i <= |text| == |m| && Open !in m
    ensures SplitsAt(Cut(text, m, i, c), text, m, i, c)
    decreases |text| - i
  {
    hide SkipTrivia, StopAt, Trivia, Stop, Terminates, SplitsAt, Covered, Cut;
    CutOnce(text, m, i, c);
    var k := SkipTrivia(text, m, i);
    if k == |text| {
      CutEnds(text, m, i, c);
    } else {
      var e := StopAt(text, m, k, [c]);
      var rest := if e < |text| then Cut(text, m, e + 1, c) else [];
      if e < |text| { CutSplits(text, m, e + 1, c); } else { NoText(text, m, c); CutEnds(text, m, |text|, c); }
      StopsAtFirst(text, m, k, c);
      OneCut(text, m, i, k, e, c, rest);
    }
  }

  lemma NoText(text: string, m: seq<Mark>, c: char)
    requires |text| == |m|
    ensures SkipTrivia(text, m, |text|) == |text|
  {
  }

  lemma StopsAtFirst(text: string, m: seq<Mark>, k: nat, c: char)
    requires k < |text| == |m| && Open !in m
    ensures var e := StopAt(text, m, k, [c]);
      && (e < |text| ==> Terminates(text, m, e, c))
      && forall j | k <= j < e :: !Terminates(text, m, j, c)
  {
    hide SkipTrivia, StopAt, Trivia, Stop, Terminates;
    forall j | k <= j < |text|
      ensures Stop(text, m, j, [c]) <==> Terminates(text, m, j, c)
    {
      StopIsTerminator(text, m, j, c);
    }
  }

  lemma CutEnds(text: string, m: seq<Mark>, i: nat, c: char)
    requires i <= |text| == |m| && SkipTrivia(text, m, i) == |text|
    ensures SplitsAt([], text, m, i, c)
  {
  }

  /** One statement, or an empty one, in front of a text split already. */
  lemma OneCut(text: string, m: seq<Mark>, i: nat, k: nat, e: nat, c: char, rest: seq<Span>)
    requires i <= k <= e <= |text| == |m| && k < |text| && !Trivia(text, m, k)
    requires forall j | i <= j < k :: Trivia(text, m, j)
    requires e < |text| ==> Terminates(text, m, e, c)
    requires forall j | k <= j < e :: !Terminates(text, m, j, c)
    requires SplitsAt(rest, text, m, Min(e + 1, |text|), c)
    ensures SplitsAt((if k < e then [(k, e)] else []) + rest, text, m, i, c)
  {
    hide Trivia, Terminates, Covered;
    var spans := (if k < e then [(k, e)] else []) + rest;
    var shift := if k < e then 1 else 0;
    assert forall n | 0 <= n < |spans| :: spans[n] == if n < shift then (k, e) else rest[n - shift];
    forall j | i <= j < |text|
      ensures Trivia(text, m, j) || Terminates(text, m, j, c) || Covered(spans, j)
    {
      CoveredByCut(spans, rest, k, e, j);
    }
  }

  lemma CoveredByCut(spans: seq<Span>, rest: seq<Span>, k: nat, e: nat, j: nat)
    requires k <= e && spans == (if k < e then [(k, e)] else []) + rest
    ensures k <= j < e || Covered(rest, j) ==> Covered(spans, j)
  {
    if k <= j < e {
      assert spans[0] == (k, e);
    } else if Covered(rest, j) {
      var n :| 0 <= n < |rest| && rest[n].0 <= j < rest[n].1;
      assert spans[if k < e then n + 1 else n] == rest[n];
    }
  }

  /** No statement of the script reads as SET TERM. */
  predicate NoSetTerm(text: string, m: seq<Mark>, i: nat, c: char)
    requires i <= |text| == |m|
    decreases |text| - i
  {
    var k := SkipTrivia(text, m, i);
    k == |text| || (!IsSetTerm(text, k) &&
      var e := StopAt(text, m, k, [c]); e == |text| || NoSetTerm(text, m, e + 1, c))
  }

  /** Without SET TERM a well-lexed script is cut at every counting terminator. */
  lemma {:induction false} ParseCuts(text: string, m: seq<Mark>, i: nat, c: char)
    requires i <= |text| == |m| && At(text, m, i) && Open !in m && NoSetTerm(text, m, i, c)
    ensures Parse(text, i, [c]) == Done(Cut(text, m, i, c))
    decreases |text| - i
  {
    hide Lex, Marks, SkipTrivia, StopAt, PieceAt, At;
    if i < |text| {
      PieceIsCut(text, m, i, c);
      var k := SkipTrivia(text, m, i);
      if k < |text| {
        var e := StopAt(text, m, k, [c]);
        if e < |text| {
          ReachesTerminator(text, m, i, k, e, c);
          ParseCuts(text, m, e + 1, c);
        } else {
          ParseEnds(text, [c]);
        }
      }
    } else {
      NothingLeft(text, m, c);
    }
  }

  lemma PieceIsCut(text: string, m: seq<Mark>, i: nat, c: char)
    requires At(text, m, i) && i < |text| && Open !in m
    requires var k := SkipTrivia(text, m, i); k == |text| || !IsSetTerm(text, k)
    ensures var k := SkipTrivia(text, m, i);
      PieceAt(text, i, [c]) ==
        if k == |text| then Nothing
        else
          var e := StopAt(text, m, k, [c]);
          Body(k, e, if e < |text| then e + 1 else e)
  {
    hide Lex, Marks, SkipTrivia, StopAt, Trivia, Stop, StartsAt, FindTerm, SetTerm, NewTerminator;
    var own := MarksFrom(text, i);
    SameMarks(text, m, i);
    SameSkip(text, m, own, i);
    var k := SkipTrivia(text, m, i);
    if k < |text| {
      assert own[k] == m[k] && m[k] in m;
      SameStop(text, m, own, k, [c]);
      var e := StopAt(text, m, k, [c]);
      if e < |text| { assert own[e] == m[e] && m[e] in m; }
    }
  }

  lemma NothingLeft(text: string, m: seq<Mark>, c: char)
    requires |m| == |text|
    ensures Cut(text, m, |text|, c) == []
  {
  }

  lemma SameMarks(text: string, m: seq<Mark>, i: nat)
    requires At(text, m, i)
    ensures var own := MarksFrom(text, i); forall k | i <= k < |text| :: own[k] == m[k]
  {
    forall k | i <= k < |text|
      ensures MarksFrom(text, i)[k] == m[k]
    {
      assert m[i..][k - i] == m[k];
    }
  }

  lemma {:induction false} SameSkip(text: string, m: seq<Mark>, m': seq<Mark>, i: nat)
    requires i <= |text| == |m| == |m'| && forall k | i <= k < |text| :: m[k] == m'[k]
    ensures SkipTrivia(text, m, i) == SkipTrivia(text, m', i)
    decreases |text| - i
  {
    if i < |text| { SameSkip(text, m, m', i + 1); }
  }

  lemma {:induction false} SameStop(text: string, m: seq<Mark>, m': seq<Mark>, i: nat, term: string)
    requires i <= |text| == |m| == |m'| && forall k | i <= k < |text| :: m[k] == m'[k]
    ensures StopAt(text, m, i, term) == StopAt(text, m', i, term)
    decreases |text| - i
  {
    if i < |text| { SameStop(text, m, m', i + 1, term); }
  }

  /** A scan that comes to a plain character has come there between regions. */
  lemma {:induction false} WalkTo(text: string, m: seq<Mark>, i: nat, p: nat)
    requires At(text, m, i) && i <= p < |text| && m[p] == Code
    ensures At(text, m, p + 1)
    decreases p - i
  {
    hide Lex, Marks;
    WalkStep(text, m, i);
    var r := RegionOf(text, i);
    if r.None? {
      if i < p { WalkTo(text, m, i + 1, p); }
    } else {
      assert p >= r.value.end;
      WalkTo(text, m, r.value.end, p);
    }
  }

  lemma ReachesTerminator(text: string, m: seq<Mark>, i: nat, k: nat, e: nat, c: char)
    requires At(text, m, i) && i <= k <= e < |text| && Open !in m && e == StopAt(text, m, k, [c])
    ensures At(text, m, e + 1)
  {
    assert m[e] in m;
    WalkTo(text, m, i, e);
  }

  /** Blanking comments moves no statement. */
  lemma {:induction false} BlankCuts(text: string, m: seq<Mark>, i: nat, c: char)
    requires i <= |text| == |m| && Open !in m && !IsSpace(c)
    ensures Cut(BlankBy(text, m), Uncommented(m), i, c) == Cut(text, m, i, c)
    decreases |text| - i
  {
    hide SkipTrivia, StopAt, BlankBy, Uncommented, IsSpace, Cut;
    CutOnce(text, m, i, c);
    CutOnce(BlankBy(text, m), Uncommented(m), i, c);
    BlankSkip(text, m, i);
    var k := SkipTrivia(text, m, i);
    if k < |text| {
      BlankStop(text, m, k, c);
      var e := StopAt(text, m, k, [c]);
      if e < |text| { BlankCuts(text, m, e + 1, c); }
    }
  }

  lemma CutOnce(text: string, m: seq<Mark>, i: nat, c: char)
    requires i <= |text| == |m|
    ensures var k := SkipTrivia(text, m, i);
      Cut(text, m, i, c) ==
        if k == |text| then []
        else
          var e := StopAt(text, m, k, [c]);
          (if k < e then [(k, e)] else []) + (if e < |text| then Cut(text, m, e + 1, c) else [])
  {
    hide SkipTrivia, StopAt;
  }

  lemma {:induction false} BlankSkip(text: string, m: seq<Mark>, i: nat)
    requires i <= |text| == |m|
    ensures SkipTrivia(BlankBy(text, m), Uncommented(m), i) == SkipTrivia(text, m, i)
    decreases |text| - i
  {
    if i < |text| { BlankSkip(text, m, i + 1); }
  }

  lemma {:induction false} BlankStop(text: string, m: seq<Mark>, i: nat, c: char)
    requires i <= |text| == |m| && Open !in m && !IsSpace(c)
    ensures StopAt(BlankBy(text, m), Uncommented(m), i, [c]) == StopAt(text, m, i, [c])
    decreases |text| - i
  {
    if i < |text| {
      BlankStop(text, m, i + 1, c);
      assert m[i] in m;
      StopIsTerminator(text, m, i, c);
      StopIsTerminator(BlankBy(text, m), Uncommented(m), i, c);
    }
  }

  /** Splitting a script, by its own characters. */
  lemma SplitExactly(text: string, c: char)
    requires WellLexed(text) && NoSetTerm(text, Marks(text), 0, c)
    ensures var r := Parse(text, 0, [c]); r.Done? && SplitsAt(r.value, text, Marks(text), 0, c)
  {
    hide Lex, Marks, Cut, SplitsAt, NoSetTerm;
    assert Marks(text)[0..] == Marks(text) && text[0..] == text;
    ParseCuts(text, Marks(text), 0, c);
    CutSplits(text, Marks(text), 0, c);
  }

  /** No statement starts before the position its parse started from. */
  lemma {:induction false} StartsLater(text: string, i: nat, term: string)
    requires i <= |text| && Parse(text, i, term).Done?
    ensures forall span | span in Parse(text, i, term).value :: i <= span.0
    decreases |text| - i
  {
    hide PieceAt;
    if i < |text| {
      match PieceAt(text, i, term)
      case Switch(next, term') => StartsLater(text, next, term');
      case Body(start, end, next) => StartsLater(text, next, term);
      case _ =>
    }
  }

  /** A statement that reads as SET TERM once its comments are blanked is no statement any more. */
  lemma SetTermAppears(t: string, u: seq<Mark>, i: nat, k: nat, c: char)
    requires |t| == |u| && At(t, u, i) && i <= k < |t| && Open !in u
    requires SkipTrivia(t, u, i) == k && IsSetTerm(t, k)
    ensures Parse(t, i, [c]).Done? ==> forall span | span in Parse(t, i, [c]).value :: k < span.0
  {
    hide Lex, Marks, SkipTrivia, StopAt, Trivia, Stop, StartsAt, FindTerm, SetTerm, NewTerminator;
    var own := MarksFrom(t, i);
    SameMarks(t, u, i);
    SameSkip(t, u, own, i);
    assert own[k] == u[k] && u[k] in u;
    if PieceAt(t, i, [c]).Switch? && Parse(t, i, [c]).Done? {
      CommandNotEmpty(t[k..FindTerm(t, k, [c])]);
      StartsLater(t, PieceAt(t, i, [c]).next, PieceAt(t, i, [c]).term);
    }
  }

  /** The first letter of a SET TERM was there before blanking, so a statement starts with it. */
  lemma SameFirst(text: string, m: seq<Mark>, k: nat, c: char)
    requires k < |text| == |m| && !Trivia(text, m, k) && IsSetTerm(BlankBy(text, m), k) && c != 's' && c != 'S'
    ensures text[k] != c
  {
    var t := BlankBy(text, m);
    var head := t[k..Min(k + 12, |text|)];
    assert Lower(head[..3])[0] == 's' && t[k] == head[0];
  }

  lemma FirstCut(text: string, m: seq<Mark>, i: nat, c: char)
    requires i <= |text| == |m| && Open !in m
    requires var k := SkipTrivia(text, m, i); k < |text| && text[k] != c
    ensures var k := SkipTrivia(text, m, i); (k, StopAt(text, m, k, [c])) in Cut(text, m, i, c)
  {
    hide SkipTrivia, Cut;
    var k := SkipTrivia(text, m, i);
    CutOnce(text, m, i, c);
    assert m[k] in m;
    StopIsTerminator(text, m, k, c);
  }

  lemma FirstPiece(text: string, m: seq<Mark>, i: nat, c: char)
    requires At(text, m, i) && Open !in m
    requires var k := SkipTrivia(text, m, i);
      k < |text| && !IsSetTerm(text, k) && StopAt(text, m, k, [c]) < |text|
    ensures var k := SkipTrivia(text, m, i); var e := StopAt(text, m, k, [c]);
      Parse(text, i, [c]) == Prepend(if k < e then [(k, e)] else [], Parse(text, e + 1, [c]))
  {
    hide SkipTrivia, StopAt, PieceAt, At;
    PieceIsCut(text, m, i, c);
  }

  lemma PrependInjective(spans: seq<Span>, a: Scan<seq<Span>>, b: Scan<seq<Span>>)
    requires Prepend(spans, a) == Prepend(spans, b)
    ensures a == b
  {
    if a.Done? && b.Done? { assert (spans + a.value)[|spans|..] == (spans + b.value)[|spans|..]; }
  }

  lemma {:induction false} SetTermShows(text: string, m: seq<Mark>, i: nat, c: char)
    requires i <= |text| == |m| && Open !in m && !IsSpace(c) && c != 's' && c != 'S'
    requires At(text, m, i) && NoSetTerm(text, m, i, c)
    requires At(BlankBy(text, m), Uncommented(m), i) && !NoSetTerm(BlankBy(text, m), Uncommented(m), i, c)
    ensures Parse(BlankBy(text, m), i, [c]) != Parse(text, i, [c])
    decreases |text| - i
  {
    hide Lex, Marks, SkipTrivia, StopAt, PieceAt, At, Trivia, Stop, BlankBy, Cut, Parse, SetTerm, IsSetTerm;
    var (t, u) := (BlankBy(text, m), Uncommented(m));
    assert Open !in u;
    BlankSkip(text, m, i);
    var k := SkipTrivia(text, m, i);
    BlankStop(text, m, k, c);
    var e := StopAt(text, m, k, [c]);
    if IsSetTerm(t, k) {
      SetTermAppears(t, u, i, k, c);
      ParseCuts(text, m, i, c);
      SameFirst(text, m, k, c);
      FirstCut(text, m, i, c);
      assert (k, e) in Cut(text, m, i, c);
    } else {
      FirstPiece(text, m, i, c);
      FirstPiece(t, u, i, c);
      ReachesTerminator(text, m, i, k, e, c);
      ReachesTerminator(t, u, i, k, e, c);
      if Parse(t, i, [c]) == Parse(text, i, [c]) {
        PrependInjective(if k < e then [(k, e)] else [], Parse(text, e + 1, [c]), Parse(t, e + 1, [c]));
      }
      SetTermShows(text, m, e + 1, c);
    }
  }

  /**
   * A script and its comment-stripped form split at the same positions, if and only
   * if no statement reads as SET TERM once its comments are blanks.
   */
  lemma StripKeepsPositions(text: string, c: char)
    requires WellLexed(text) && NoSetTerm(text, Marks(text), 0, c)
    requires !IsSpace(c)
    ensures Parse(text, 0, [c]).Done?
    ensures NoSetTerm(Blank(text), Marks(Blank(text)), 0, c) ==> Parse(Blank(text), 0, [c]) == Parse(text, 0, [c])
    ensures c != 's' && c != 'S' && Parse(Blank(text), 0, [c]) == Parse(text, 0, [c]) ==>
      NoSetTerm(Blank(text), Marks(Blank(text)), 0, c)
    ensures forall i | 0 <= i <= |text| :: LineCol(Blank(text), i) == LineCol(text, i)
  {
    hide Lex, Marks, Cut, NoSetTerm, Parse;
    var (m, t) := (Marks(text), Blank(text));
    assert m[0..] == m && text[0..] == text && Marks(t)[0..] == Marks(t) && t[0..] == t;
    BlankTwice(text);
    MarksOfBlank(text);
    ParseCuts(text, m, 0, c);
    if NoSetTerm(t, Marks(t), 0, c) {
      ParseCuts(t, Marks(t), 0, c);
      BlankCuts(text, m, 0, c);
    } else if c != 's' && c != 'S' {
      SetTermShows(text, m, 0, c);
    }
    forall i | 0 <= i <= |text|
      ensures LineCol(t, i) == LineCol(text, i)
    {
      SameLines(text, i);
    }
  }

  /** A comment between the two words hides a SET TERM from the splitter, and blanking the comment brings it out. */
  lemma BlankingMakesSetTerm()
    ensures var text := "set/**/term";
      && WellLexed(text) && NoSetTerm(text, Marks(text), 0, ';')
      && Parse(text, 0, ";") == Done([(0, 11)])
      && Parse(Blank(text), 0, ";") == Failed(NoTerminator, 1, 1)
  {
    hide Lex, Marks, SkipTrivia, StopAt, Stop, FindTerm, PieceAt, Parse, Cut;
    var (text, m) := ("set/**/term", Repeat(Code, 3) + Repeat(Comment, 4) + Repeat(Code, 4));
    MarksOfExample();
    assert m[0..] == Marks(text)[0..] && text[0..] == text;
    assert !IsSetTerm(text, 0);
    NotTrivia(text, m, 0);
    OneStatement(text, m, ';');
    CutOnce(text, m, 0, ';');
    ParseCuts(text, m, 0, ';');
    assert Cut(text, m, 0, ';') == [(0, 11)] + [] == [(0, 11)];
    BlankedExample(text, m);
  }

  lemma MarksOfExample()
    ensures Marks("set/**/term") == Repeat(Code, 3) + Repeat(Comment, 4) + Repeat(Code, 4)
  {
    hide Lex, Marks;
    var s := "set/**/term";
    LexPlain(s, 3);
    assert s[3..] == "/**/term" && "/**/term"[4..] == "term" && "term"[4..] == "";
    LexPlain("term", 4);
    NoMarks("");
    CommentHead();
    MarksSplit("/**/term");
  }

  lemma CommentHead()
    ensures Lex("/**/term") == Some(Lexeme(BlockComment, 4, true))
  {
    var s := "/**/term";
    assert PairAt(s, 0, '/', '*') && !PairAt(s, 0, '-', '-');
    assert PairAt(s[2..], 0, '*', '/');
  }

  /** A text without its terminator is one statement. */
  lemma OneStatement(text: string, m: seq<Mark>, c: char)
    requires |text| == |m| && Open !in m && c !in text
    ensures StopAt(text, m, 0, [c]) == |text|
  {
    hide Stop, StopAt;
    forall j | 0 <= j < |text|
      ensures !Stop(text, m, j, [c])
    {
      assert m[j] in m && text[j] in text;
      StopIsTerminator(text, m, j, c);
    }
    OverBody(text, m, 0, |text|, [c]);
    StopsHere(text, m, |text|, [c]);
  }

  lemma {:induction false} NoTerm(text: string, i: nat, c: char)
    requires i <= |text| && c !in text
    ensures FindTerm(text, i, [c]) == |text|
    decreases |text| - i
  {
    if i < |text| {
      assert text[i..i + 1][0] in text;
      NoTerm(text, i + 1, c);
    }
  }

  lemma SetTermOfExample()
    ensures IsSetTerm("set    term", 0)
  {
    var t := "set    term";
    assert t[0..Min(12, |t|)] == t && t[..3] == "set" && t[3..] == "    term" && t[7..11] == "term";
    assert Lower("set") == "set" && Lower("term") == "term";
    FourSpaces();
    hide SpaceLen, Lower;
  }

  lemma FourSpaces()
    ensures SpaceLen("    term") == 4
  {
    assert "    term"[1..] == "   term" && "   term"[1..] == "  term" && "  term"[1..] == " term";
    assert " term"[1..] == "term";
  }

  lemma BlankedExample(text: string, m: seq<Mark>)
    requires text == "set/**/term" && m == Marks(text) == Repeat(Code, 3) + Repeat(Comment, 4) + Repeat(Code, 4)
    ensures Parse(Blank(text), 0, ";") == Failed(NoTerminator, 1, 1)
  {
    hide Lex, Marks, SkipTrivia, StopAt, Stop, FindTerm, IsSetTerm, NewTerminator, BlankBy, Uncommented;
    var t := "set    term";
    BlankOfExample(text, m);
    MarksOfBlank(text);
    assert t[0..] == t;
    NotTrivia(t, MarksFrom(t, 0), 0);
    SetTermOfExample();
    NoTerm(t, 0, ';');
  }

  lemma BlankOfExample(text: string, m: seq<Mark>)
    requires text == "set/**/term" && m == Repeat(Code, 3) + Repeat(Comment, 4) + Repeat(Code, 4)
    ensures BlankBy(text, m) == "set    term" && Uncommented(m)[0] == Code
  {
  }

  lemma {:induction false} SameLines(text: string, i: nat)
    requires i <= |text|
    ensures LineCol(Blank(text), i) == LineCol(text, i)
  {
    hide Marks;
    if i > 0 { SameLines(text, i - 1); }
  }
}
