/**
 * The region scanner (script/scanner.ts): comments, strings, quoted identifiers
 * and q-literals, and the classification of every character that follows from it.
 */
module Scanner {
  import opened WireTypes

  datatype Kind = LineComment | BlockComment | Str | QuotedIdentifier | QLiteral

  /** A region at the head of a text: `len` characters, up to the end if not terminated. */
  datatype Lexeme = Lexeme(kind: Kind, len: nat, terminated: bool)

  datatype Region = Region(kind: Kind, start: nat, end: nat, terminated: bool)

  predicate IsComment(k: Kind) { k.LineComment? || k.BlockComment? }

  predicate IsNewline(c: char) { c == '\n' || c == '\r' }

  function Closer(opener: char): char
  {
    match opener
    case '{' => '}'
    case '[' => ']'
    case '(' => ')'
    case '<' => '>'
    case _ => opener
  }

  /** Characters before the end of the line. */
  function LineLen(s: string): (n: nat)
    ensures n <= |s| && (forall k | 0 <= k < n :: !IsNewline(s[k])) && (n < |s| ==> IsNewline(s[n]))
  {
    if s == [] || IsNewline(s[0]) then 0 else 1 + LineLen(s[1..])
  }

  predicate PairAt(s: string, k: int, a: char, b: char) { 0 <= k < |s| - 1 && s[k] == a && s[k + 1] == b }

  /** The first place where `a` is followed by `b`. */
  function FindPair(s: string, a: char, b: char): (r: Option<nat>)
    ensures r.Some? ==> PairAt(s, r.value, a, b) && forall k | 0 <= k < r.value :: !PairAt(s, k, a, b)
    ensures r.None? ==> forall k :: !PairAt(s, k, a, b)
  {
    if |s| < 2 then None
    else if s[0] == a && s[1] == b then Some(0)
    else
      var r := FindPair(s[1..], a, b);
      assert forall k :: PairAt(s, k, a, b) ==> k == 0 || PairAt(s[1..], k - 1, a, b);
      if r.None? then None
      else
        assert forall k | 0 <= k < r.value + 1 :: PairAt(s, k, a, b) ==> k == 0 || PairAt(s[1..], k - 1, a, b);
        Some(r.value + 1)
  }

  function Shift(r: Option<nat>, n: nat): Option<nat> { if r.None? then None else Some(r.value + n) }

  predicate Doubled(s: string, quote: char) { |s| > 1 && s[0] == quote && s[1] == quote }

  /** Up to and with the closing quote, where a doubled quote does not close. */
  function QuoteLen(s: string, quote: char): (r: Option<nat>)
    ensures r.Some? ==> 0 < r.value <= |s| && s[r.value - 1] == quote && (r.value < |s| ==> s[r.value] != quote)
  {
    if s == [] then None
    else if Doubled(s, quote) then Shift(QuoteLen(s[2..], quote), 2)
    else if s[0] == quote then Some(1)
    else Shift(QuoteLen(s[1..], quote), 1)
  }

  lemma QuoteStep(s: string, quote: char)
    requires s != []
    ensures QuoteLen(s, quote) ==
      if Doubled(s, quote) then Shift(QuoteLen(s[2..], quote), 2)
      else if s[0] == quote then Some(1)
      else Shift(QuoteLen(s[1..], quote), 1)
  {
  }

  /** The region that starts at the head of `s`, if one does. */
  function Lex(s: string): (r: Option<Lexeme>)
    ensures r.Some? ==> 0 < r.value.len <= |s| && (!r.value.terminated ==> r.value.len == |s|)
    ensures r.Some? && IsComment(r.value.kind) ==> r.value.len >= 2
  {
    if s == [] then None
    else if PairAt(s, 0, '-', '-') then Some(Lexeme(LineComment, 2 + LineLen(s[2..]), true))
    else if PairAt(s, 0, '/', '*') then
      Ended(BlockComment, FindPair(s[2..], '*', '/'), 4, |s|)
    else if PairAt(s, 0, 'q', '\'') || PairAt(s, 0, 'Q', '\'') then
      if |s| == 2 then Some(Lexeme(QLiteral, 2, false))
      else Ended(QLiteral, FindPair(s[3..], Closer(s[2]), '\''), 5, |s|)
    else if s[0] == '\'' || s[0] == '"' then
      Ended(if s[0] == '\'' then Str else QuotedIdentifier, QuoteLen(s[1..], s[0]), 1, |s|)
    else None
  }

  function Ended(k: Kind, found: Option<nat>, extra: nat, all: nat): Option<Lexeme>
  {
    Some(if found.None? then Lexeme(k, all, false) else Lexeme(k, found.value + extra, true))
  }

  // ---- what each character is ---------------------------------------------------------

  /** Open: in a region that never ends. */
  datatype Mark = Code | Comment | Quoted | Open

  function MarkOf(x: Lexeme): Mark {
    if !x.terminated then Open else if IsComment(x.kind) then Comment else Quoted
  }

  function Repeat(m: Mark, n: nat): (r: seq<Mark>)
    ensures |r| == n && forall k | 0 <= k < n :: r[k] == m
  {
    seq(n, _ => m)
  }

  /** Every character's class: this is what the splitter, the stripper and the rewriter agree on. */
  function Marks(s: string): (m: seq<Mark>)
    ensures |m| == |s|
  {
    match Lex(s)
    case None => if s == [] then [] else [Code] + Marks(s[1..])
    case Some(x) => Repeat(MarkOf(x), x.len) + Marks(s[x.len..])
  }

  predicate WellLexed(s: string) { Open !in Marks(s) }

  /** Comments blanked out, newlines kept. */
  function Blank(s: string): (t: string)
    ensures |t| == |s|
  {
    BlankBy(s, Marks(s))
  }

  function BlankBy(s: string, m: seq<Mark>): (t: string)
    requires |m| == |s|
    ensures |t| == |s|
  {
    seq(|s|, k requires 0 <= k < |s| => if m[k] == Comment && !IsNewline(s[k]) then ' ' else s[k])
  }

  function Uncommented(m: seq<Mark>): (u: seq<Mark>)
    ensures |u| == |m|
  {
    seq(|m|, k requires 0 <= k < |m| => if m[k] == Comment then Code else m[k])
  }

  // ---- the region at the head depends on the region only ------------------------------

  /** The texts agree on their first `n` characters. */
  predicate Agree(s: string, t: string, n: nat) {
    n <= |s| && n <= |t| && forall k | 0 <= k < n :: s[k] == t[k]
  }

  lemma {:induction false} FindPairLocal(s: string, t: string, a: char, b: char)
    requires FindPair(s, a, b).Some? && Agree(s, t, FindPair(s, a, b).value + 2)
    ensures FindPair(t, a, b) == FindPair(s, a, b)
  {
    if !(s[0] == a && s[1] == b) {
      AgreeRest(s, t, FindPair(s, a, b).value + 2, 1);
      FindPairLocal(s[1..], t[1..], a, b);
    }
  }

  lemma {:induction false} QuoteLenLocal(s: string, t: string, quote: char)
    requires QuoteLen(s, quote).Some? && Agree(s, t, QuoteLen(s, quote).value)
    requires var n := QuoteLen(s, quote).value; n < |t| ==> t[n] != quote
    ensures QuoteLen(t, quote) == QuoteLen(s, quote)
  {
    hide QuoteLen;
    var n := QuoteLen(s, quote).value;
    QuoteStep(s, quote);
    QuoteStep(t, quote);
    var k := if Doubled(s, quote) then 2 else if s[0] == quote then 0 else 1;
    if k > 0 {
      AgreeRest(s, t, n, k);
      QuoteLenLocal(s[k..], t[k..], quote);
    }
  }

  lemma AgreeRest(s: string, t: string, n: nat, k: nat)
    requires k <= n && Agree(s, t, n)
    ensures Agree(s[k..], t[k..], n - k)
  {
  }

  /** A quoted region is recognised by its own characters and, after a quote, by what does not follow. */
  lemma LexLocal(s: string, t: string)
    requires Lex(s).Some? && Lex(s).value.terminated && !IsComment(Lex(s).value.kind)
    requires Agree(s, t, Lex(s).value.len)
    requires var n := Lex(s).value.len; n < |t| ==> t[n] == ' ' || (n < |s| && t[n] == s[n])
    ensures Lex(t) == Lex(s)
  {
    var x := Lex(s).value;
    if x.kind.QLiteral? {
      AgreeRest(s, t, x.len, 3);
      FindPairLocal(s[3..], t[3..], Closer(s[2]), '\'');
    } else {
      AgreeRest(s, t, x.len, 1);
      QuoteLenLocal(s[1..], t[1..], s[0]);
    }
  }

  // ---- blanking ------------------------------------------------------------------------

  function HeadLen(s: string): (n: nat)
    requires s != []
    ensures 0 < n <= |s|
  {
    if Lex(s).None? then 1 else Lex(s).value.len
  }

  function HeadMark(s: string): Mark
    requires s != []
  {
    if Lex(s).None? then Code else MarkOf(Lex(s).value)
  }

  lemma MarksSplit(s: string)
    requires s != []
    ensures Marks(s) == Repeat(HeadMark(s), HeadLen(s)) + Marks(s[HeadLen(s)..])
  {
  }

  lemma MarksHead(s: string)
    requires s != []
    ensures Marks(s)[0] == HeadMark(s)
  {
  }

  /** Blanking goes region by region. */
  lemma BlankStep(s: string)
    requires s != []
    ensures var n := HeadLen(s);
      && Marks(s)[n..] == Marks(s[n..])
      && Blank(s)[n..] == Blank(s[n..])
      && (HeadMark(s) != Comment ==> Blank(s)[..n] == s[..n])
  {
    hide Lex, Marks, HeadLen, HeadMark;
    MarksSplit(s);
  }

  /** What blanking makes of the first character. */
  lemma BlankHead(s: string)
    requires s != []
    ensures Blank(s)[0] == s[0] || (Blank(s)[0] == ' ' && (s[0] == '-' || s[0] == '/'))
  {
    MarksHead(s);
  }

  lemma NoRegion(s: string)
    requires s != [] && s[0] != '\'' && s[0] != '"'
    requires |s| > 1 ==>
      (s[0] == '-' ==> s[1] != '-') && (s[0] == '/' ==> s[1] != '*') && (s[0] == 'q' || s[0] == 'Q' ==> s[1] != '\'')
    ensures Lex(s).None?
  {
  }

  /** Characters that start no region, then a text, lex as code and then that text. */
  lemma {:induction false} LexPlain(s: string, n: nat)
    requires n <= |s| && forall k | 0 <= k < n :: s[k] !in "'\"-/qQ"
    ensures Marks(s) == Repeat(Code, n) + Marks(s[n..])
  {
    hide Lex;
    if n > 0 {
      NoRegion(s);
      LexPlain(s[1..], n - 1);
      assert s[1..][n - 1..] == s[n..];
      assert [Code] + (Repeat(Code, n - 1) + Marks(s[n..])) == Repeat(Code, n) + Marks(s[n..]);
    } else {
      assert s[0..] == s;
    }
  }

  /** The head of a blanked text: as before, or code where a comment was. */
  lemma BlankHeadMarks(s: string)
    requires s != [] && HeadMark(s) != Open
    ensures var (t, n) := (Blank(s), HeadLen(s));
      Marks(t) == Repeat(if HeadMark(s) == Comment then Code else HeadMark(s), n) + Marks(t[n..])
  {
    var (t, n) := (Blank(s), HeadLen(s));
    BlankStep(s);
    if Lex(s).None? {
      PlainStaysPlain(s);
      MarksSplit(t);
    } else if IsComment(Lex(s).value.kind) {
      MarksSplit(s);
      LexPlain(t, n);
    } else {
      if n < |s| {
        BlankHead(s[n..]);
        assert t[n] == t[n..][0] && s[n] == s[n..][0];
      }
      assert forall k | 0 <= k < n :: t[..n][k] == s[..n][k];
      LexLocal(s, t);
      MarksSplit(t);
    }
  }

  /** Blanking turns comments to code, and changes no other character's class. */
  lemma {:induction false} MarksOfBlank(s: string)
    requires WellLexed(s)
    ensures Marks(Blank(s)) == Uncommented(Marks(s))
    decreases |s|
  {
    hide Lex, Marks, Blank, HeadMark, HeadLen;
    if s == [] {
      NoMarks(s);
      NoMarks(Blank(s));
    } else {
      var n := HeadLen(s);
      MarksSplit(s);
      assert Marks(s)[0] == HeadMark(s);
      BlankTail(s);
      WellLexedRest(s, n);
      MarksOfBlank(s[n..]);
      BlankHeadMarks(s);
    }
  }

  lemma NoMarks(s: string)
    requires s == []
    ensures Marks(s) == []
  {
  }

  lemma BlankTail(s: string)
    requires s != []
    ensures var n := HeadLen(s); Marks(s)[n..] == Marks(s[n..]) && Blank(s)[n..] == Blank(s[n..])
  {
    BlankStep(s);
  }

  lemma WellLexedRest(s: string, n: nat)
    requires WellLexed(s) && n <= |s| && Marks(s)[n..] == Marks(s[n..])
    ensures WellLexed(s[n..])
  {
    assert forall k | 0 <= k < |s| - n :: Marks(s[n..])[k] == Marks(s)[n + k];
  }

  lemma PlainStaysPlain(s: string)
    requires s != [] && Lex(s).None?
    ensures Lex(Blank(s)).None?
  {
    var t := Blank(s);
    BlankStep(s);
    assert HeadMark(s) == Code;
    assert t[0] == t[..1][0] == s[..1][0] == s[0];
    if |s| > 1 {
      BlankHead(s[1..]);
      assert t[1] == t[1..][0] && s[1] == s[1..][0];
    }
    NoRegion(t);
  }

  /** `stripComments` is idempotent, keeps every newline, and leaves no comment behind. */
  lemma BlankTwice(s: string)
    requires WellLexed(s)
    ensures Blank(Blank(s)) == Blank(s) && Comment !in Marks(Blank(s)) && WellLexed(Blank(s))
    ensures forall k | 0 <= k < |s| :: IsNewline(Blank(s)[k]) <==> IsNewline(s[k])
    ensures forall k | 0 <= k < |s| :: Marks(s)[k] != Comment ==> Blank(s)[k] == s[k]
  {
    hide Marks, Lex;
    MarksOfBlank(s);
  }

  // ---- the loops -----------------------------------------------------------------------

  /** The region at position `i`, in absolute positions. */
  function RegionOf(text: string, i: nat): (r: Option<Region>)
    requires i <= |text|
    ensures r.Some? ==> i == r.value.start < r.value.end <= |text|
  {
    match Lex(text[i..])
    case None => None
    case Some(x) => Some(Region(x.kind, i, i + x.len, x.terminated))
  }

  method ScanLine(text: string, from: nat) returns (j: nat)
    requires from <= |text|
    ensures j == from + LineLen(text[from..])
  {
    j := from;
    while j < |text| && !IsNewline(text[j])
      invariant from <= j <= |text| && from + LineLen(text[from..]) == j + LineLen(text[j..])
    {
      assert text[j..][1..] == text[j + 1..];
      j := j + 1;
    }
  }

  method ScanPair(text: string, from: nat, a: char, b: char) returns (j: nat)
    requires from <= |text|
    ensures from <= j <= |text|
    ensures FindPair(text[from..], a, b) == if j < |text| then Some(j - from) else None
  {
    j := from;
    while j < |text| && !(text[j] == a && j + 1 < |text| && text[j + 1] == b)
      invariant from <= j <= |text|
      invariant forall k | 0 <= k < j - from :: !PairAt(text[from..], k, a, b)
    {
      j := j + 1;
    }
    if j < |text| { assert PairAt(text[from..], j - from, a, b); }
  }

  method ScanQuote(text: string, from: nat, quote: char) returns (end: nat, terminated: bool)
    requires from <= |text|
    ensures from <= end <= |text|
    ensures QuoteLen(text[from..], quote) == if terminated then Some(end - from) else None
    ensures !terminated ==> end == |text|
  {
    hide QuoteLen;
    var j := from;
    while j < |text|
      invariant from <= j <= |text|
      invariant QuoteLen(text[from..], quote) == Shift(QuoteLen(text[j..], quote), j - from)
    {
      QuoteStep(text[j..], quote);
      if text[j] == quote {
        if j + 1 < |text| && text[j + 1] == quote {
          assert text[j..][2..] == text[j + 2..];
          j := j + 2;
          continue;
        }
        return j + 1, true;
      }
      assert text[j..][1..] == text[j + 1..];
      j := j + 1;
    }
    NoQuote(text[|text|..], quote);
    return |text|, false;
  }

  lemma NoQuote(s: string, quote: char)
    requires s == []
    ensures QuoteLen(s, quote).None?
  {
  }

  method RegionAt(text: string, i: nat) returns (r: Option<Region>)
    requires i < |text|
    ensures r == RegionOf(text, i)
  {
    hide FindPair, LineLen, QuoteLen;
    var (n, c) := (|text|, text[i]);
    var s := text[i..];
    var next := if i + 1 < n then Some(text[i + 1]) else None;
    if c == '-' && next == Some('-') {
      assert s[2..] == text[i + 2..];
      var j := ScanLine(text, i + 2);
      return Some(Region(LineComment, i, j, true));
    }
    if c == '/' && next == Some('*') {
      assert s[2..] == text[i + 2..];
      var j := ScanPair(text, i + 2, '*', '/');
      return Some(if j < n then Region(BlockComment, i, j + 2, true) else Region(BlockComment, i, n, false));
    }
    if (c == 'q' || c == 'Q') && next == Some('\'') {
      if i + 2 == n { return Some(Region(QLiteral, i, n, false)); }
      assert s[3..] == text[i + 3..] && s[2] == text[i + 2];
      var j := ScanPair(text, i + 3, Closer(text[i + 2]), '\'');
      return Some(if j < n then Region(QLiteral, i, j + 2, true) else Region(QLiteral, i, n, false));
    }
    if c == '\'' || c == '"' {
      assert s[1..] == text[i + 1..];
      var end, terminated := ScanQuote(text, i + 1, c);
      return Some(Region(if c == '\'' then Str else QuotedIdentifier, i, end, terminated));
    }
    return None;
  }
}
