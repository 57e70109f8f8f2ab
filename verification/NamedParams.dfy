/** Named parameters, `@name` to `?` (api/named-params.ts). */
module NamedParams {
  import opened Scanner
  import opened WireTypes

  predicate IsLetter(c: char) { 'a' <= c <= 'z' || 'A' <= c <= 'Z' || c == '_' }

  predicate IsIdentPart(c: char) { IsLetter(c) || '0' <= c <= '9' || c == '$' }

  function IdentLen(s: string): (n: nat)
    ensures n <= |s| && (forall k | 0 <= k < n :: IsIdentPart(s[k])) && (n < |s| ==> !IsIdentPart(s[n]))
  {
    if s == [] || !IsIdentPart(s[0]) then 0 else 1 + IdentLen(s[1..])
  }

  /** A marker at the head of `s`: its length with the `@`, or 0. */
  function MarkerLen(s: string): (n: nat)
    ensures n <= |s| && (n > 0 ==> n >= 2 && s[0] == '@')
    ensures n > 0 ==> forall k | 1 <= k < n :: IsIdentPart(s[k])
    ensures n > 0 ==> Lex(s).None?
  {
    if |s| >= 2 && s[0] == '@' && IsLetter(s[1]) then
      NoRegion(s);
      2 + IdentLen(s[2..])
    else 0
  }

  /** The text in pieces, in order: copied as it is, or the marker of a name. */
  datatype Piece = Verbatim(text: string) | Marker(name: string)

  /** Regions are copied whole; a marker is only seen between them. */
  function Pieces(s: string): seq<Piece>
  {
    if s == [] then []
    else
      var n := HeadLen(s);
      if Lex(s).Some? then [Verbatim(s[..n])] + Pieces(s[n..])
      else if MarkerLen(s) > 0 then [Marker(s[1..MarkerLen(s)])] + Pieces(s[MarkerLen(s)..])
      else [Verbatim(s[..1])] + Pieces(s[1..])
  }

  function Sql(pieces: seq<Piece>): string
  {
    if pieces == [] then []
    else (match pieces[0] case Verbatim(t) => t case Marker(_) => "?") + Sql(pieces[1..])
  }

  function Names(pieces: seq<Piece>): seq<string>
  {
    if pieces == [] then []
    else (match pieces[0] case Verbatim(_) => [] case Marker(n) => [n]) + Names(pieces[1..])
  }

  /** The pieces with every marker written out. */
  function Source(pieces: seq<Piece>): string
  {
    if pieces == [] then []
    else (match pieces[0] case Verbatim(t) => t case Marker(n) => ['@'] + n) + Source(pieces[1..])
  }

  function Rewritten(s: string): string { Sql(Pieces(s)) }

  /** Nothing but the markers is touched: the pieces spell the text. */
  lemma {:induction false} PiecesSpell(s: string)
    ensures Source(Pieces(s)) == s
    decreases |s|
  {
    hide Lex, HeadLen, MarkerLen;
    if s != [] {
      var n := if Lex(s).None? && MarkerLen(s) > 0 then MarkerLen(s) else HeadLen(s);
      HeadOfPieces(s);
      PiecesSpell(s[n..]);
      assert s == s[..n] + s[n..];
      if Lex(s).None? && MarkerLen(s) > 0 { assert ['@'] + s[1..n] == s[..n]; }
    }
  }

  lemma HeadOfPieces(s: string)
    requires s != []
    ensures Lex(s).None? ==> HeadLen(s) == 1
  {
  }

  // ---- the result lexes as the source did --------------------------------------------------

  lemma RewrittenStep(s: string)
    requires s != []
    ensures Rewritten(s) ==
      if Lex(s).None? && MarkerLen(s) > 0 then "?" + Rewritten(s[MarkerLen(s)..])
      else s[..HeadLen(s)] + Rewritten(s[HeadLen(s)..])
  {
    hide Lex, MarkerLen;
    HeadOfPieces(s);
    var p := Pieces(s);
    assert p[1..] == Pieces(s[if Lex(s).None? && MarkerLen(s) > 0 then MarkerLen(s) else HeadLen(s)..]);
  }

  lemma RewrittenHead(s: string)
    ensures s == [] ==> Rewritten(s) == []
    ensures s != [] ==> Rewritten(s) != [] && (Rewritten(s)[0] == s[0] || (Rewritten(s)[0] == '?' && s[0] == '@'))
  {
    if s != [] { RewrittenStep(s); }
  }

  /** The head of the rewritten text: the same region, or plain as before and no marker. */
  lemma RewrittenLex(s: string)
    requires s != []
    ensures var (t, n) := (Rewritten(s), if Lex(s).None? && MarkerLen(s) > 0 then MarkerLen(s) else HeadLen(s));
      && t != [] && Lex(t) == Lex(s) && MarkerLen(t) == 0 && HeadLen(t) <= |t|
      && t[HeadLen(t)..] == Rewritten(s[n..])
      && t[..HeadLen(t)] == if Lex(s).None? && MarkerLen(s) > 0 then "?" else s[..HeadLen(s)]
  {
    var (t, n) := (Rewritten(s), if Lex(s).None? && MarkerLen(s) > 0 then MarkerLen(s) else HeadLen(s));
    RewrittenStep(s);
    RewrittenHead(s[n..]);
    if Lex(s).None? {
      PlainHead(s, t, n);
    } else {
      SameRegion(s, t);
    }
  }

  lemma PlainHead(s: string, t: string, n: nat)
    requires s != [] && Lex(s).None? && 0 < n <= |s| && n == if MarkerLen(s) > 0 then MarkerLen(s) else 1
    requires t == (if MarkerLen(s) > 0 then "?" else s[..1]) + Rewritten(s[n..])
    requires |s| == n ==> Rewritten(s[n..]) == []
    requires n < |s| ==>
      Rewritten(s[n..]) != [] && (Rewritten(s[n..])[0] == s[n] || (Rewritten(s[n..])[0] == '?' && s[n] == '@'))
    ensures Lex(t).None? && MarkerLen(t) == 0
  {
    hide Rewritten;
    assert |t| > 1 ==> t[1] == Rewritten(s[n..])[0];
    NoRegion(t);
  }

  lemma SameRegion(s: string, t: string)
    requires s != [] && Lex(s).Some? && t == s[..HeadLen(s)] + Rewritten(s[HeadLen(s)..])
    requires var n := HeadLen(s);
      && (n == |s| ==> Rewritten(s[n..]) == [])
      && (n < |s| ==>
            Rewritten(s[n..]) != [] && (Rewritten(s[n..])[0] == s[n] || (Rewritten(s[n..])[0] == '?' && s[n] == '@')))
    ensures Lex(t) == Lex(s) && MarkerLen(t) == 0
  {
    hide Rewritten;
    var n := HeadLen(s);
    if n == |s| {
      assert t == s;
    } else {
      assert forall k | 0 <= k < n :: t[k] == s[k];
      assert t[n] == Rewritten(s[n..])[0];
      LexAgrees(s, t);
    }
  }

  /** As `LexLocal`, for comments too, and for a question mark in place of an `@` behind the region. */
  lemma LexAgrees(s: string, t: string)
    requires Lex(s).Some? && Lex(s).value.terminated && Agree(s, t, Lex(s).value.len)
    requires var n := Lex(s).value.len; n < |s| && n < |t| && (t[n] == s[n] || (t[n] == '?' && s[n] == '@'))
    ensures Lex(t) == Lex(s)
  {
    hide Lex, FindPair, QuoteLen, LineLen;
    match Lex(s).value.kind {
      case LineComment => LineAgrees(s, t);
      case BlockComment => BlockAgrees(s, t);
      case _ => LexLocalMark(s, t);
    }
  }

  lemma LineAgrees(s: string, t: string)
    requires Lex(s).Some? && Lex(s).value.kind.LineComment? && Agree(s, t, Lex(s).value.len)
    requires var n := Lex(s).value.len; n < |s| && n < |t| && (t[n] == s[n] || (t[n] == '?' && s[n] == '@'))
    ensures Lex(t) == Lex(s)
  {
    AgreeRest(s, t, Lex(s).value.len, 2);
    LineLenAgrees(s[2..], t[2..]);
  }

  lemma BlockAgrees(s: string, t: string)
    requires Lex(s).Some? && Lex(s).value.terminated && Lex(s).value.kind.BlockComment? && Agree(s, t, Lex(s).value.len)
    ensures Lex(t) == Lex(s)
  {
    AgreeRest(s, t, Lex(s).value.len, 2);
    FindPairLocal(s[2..], t[2..], '*', '/');
  }

  lemma LexLocalMark(s: string, t: string)
    requires Lex(s).Some? && Lex(s).value.terminated && !IsComment(Lex(s).value.kind) && Agree(s, t, Lex(s).value.len)
    requires var n := Lex(s).value.len; n < |s| && n < |t| && (t[n] == s[n] || (t[n] == '?' && s[n] == '@'))
    ensures Lex(t) == Lex(s)
  {
    var x := Lex(s).value;
    if x.kind.QLiteral? {
      AgreeRest(s, t, x.len, 3);
      FindPairLocal(s[3..], t[3..], Closer(s[2]), '\'');
    } else {
      AgreeRest(s, t, x.len, 1);
      QuoteLenLocal(s[1..], t[1..], s[0]);
    }
  }

  lemma {:induction false} LineLenAgrees(s: string, t: string)
    requires LineLen(s) < |s| && LineLen(s) < |t| && Agree(s, t, LineLen(s)) && t[LineLen(s)] == s[LineLen(s)]
    ensures LineLen(t) == LineLen(s)
  {
    if !IsNewline(s[0]) {
      AgreeRest(s, t, LineLen(s), 1);
      LineLenAgrees(s[1..], t[1..]);
    }
  }

  /** A second rewrite finds nothing and changes nothing. */
  lemma {:induction false} RewriteTwice(s: string)
    ensures Rewritten(Rewritten(s)) == Rewritten(s) && Names(Pieces(Rewritten(s))) == []
    decreases |s|
  {
    hide Lex, MarkerLen, HeadLen, Rewritten, Names, Pieces;
    if s == [] {
      RewrittenHead(s);
      NoPieces();
    } else {
      var t := Rewritten(s);
      RewrittenLex(s);
      var n := if Lex(s).None? && MarkerLen(s) > 0 then MarkerLen(s) else HeadLen(s);
      PieceNotEmpty(s);
      RewriteTwice(s[n..]);
      RewrittenStep(t);
      NamesStep(t);
      assert t == t[..HeadLen(t)] + t[HeadLen(t)..];
    }
  }

  lemma PieceNotEmpty(s: string)
    requires s != []
    ensures 0 < (if Lex(s).None? && MarkerLen(s) > 0 then MarkerLen(s) else HeadLen(s)) <= |s|
  {
  }

  lemma NoPieces()
    ensures Rewritten([]) == [] && Names(Pieces([])) == []
  {
  }

  // ---- putting the names back ---------------------------------------------------------------

  /** Replaces each question mark between regions by the next name. */
  function Restored(t: string, names: seq<string>): string
  {
    if t == [] then []
    else if Lex(t).None? && t[0] == '?' && names != [] then ['@'] + names[0] + Restored(t[1..], names[1..])
    else t[..HeadLen(t)] + Restored(t[HeadLen(t)..], names)
  }

  /** Every parameter of the plain kind comes behind the last marker. */
  predicate PlainParamsLast(s: string)
  {
    s == [] ||
    if Lex(s).None? && MarkerLen(s) > 0 then PlainParamsLast(s[MarkerLen(s)..])
    else if Lex(s).None? && s[0] == '?' then Names(Pieces(s)) == []
    else PlainParamsLast(s[HeadLen(s)..])
  }

  lemma RestoredStep(t: string, names: seq<string>)
    requires t != []
    ensures Restored(t, names) ==
      if Lex(t).None? && t[0] == '?' && names != [] then ['@'] + names[0] + Restored(t[1..], names[1..])
      else t[..HeadLen(t)] + Restored(t[HeadLen(t)..], names)
  {
  }

  lemma NamesStep(s: string)
    requires s != []
    ensures Names(Pieces(s)) ==
      if Lex(s).None? && MarkerLen(s) > 0 then [s[1..MarkerLen(s)]] + Names(Pieces(s[MarkerLen(s)..]))
      else Names(Pieces(s[HeadLen(s)..]))
  {
    hide Lex, MarkerLen;
    HeadOfPieces(s);
    var p := Pieces(s);
    assert p[1..] == Pieces(s[if Lex(s).None? && MarkerLen(s) > 0 then MarkerLen(s) else HeadLen(s)..]);
  }

  /**
   * The rewrite loses nothing: the names put back in order give the text it came
   * from, if and only if no parameter of the plain kind stands before a marker.
   */
  lemma {:induction false} RewriteInvertible(s: string)
    ensures Restored(Rewritten(s), Names(Pieces(s))) == s <==> PlainParamsLast(s)
    decreases |s|
  {
    hide Lex, MarkerLen, HeadLen, Rewritten, Restored, Names, Pieces, PlainParamsLast;
    if s == [] {
      NothingRestored();
    } else {
      var (t, names) := (Rewritten(s), Names(Pieces(s)));
      var marker := Lex(s).None? && MarkerLen(s) > 0;
      var n := if marker then MarkerLen(s) else HeadLen(s);
      RewrittenLex(s);
      PlainStep(s);
      NamesStep(s);
      RestoredStep(t, names);
      RewriteInvertible(s[n..]);
      assert s[..n] + s[n..] == s;
      if marker {
        assert t[0] == t[..HeadLen(t)][0] == '?' && HeadLen(t) == 1;
        assert names[1..] == Names(Pieces(s[n..]));
        assert ['@'] + s[1..n] == s[..n];
        SamePrefixSameRest(s[..n], Restored(t[1..], names[1..]), s[n..]);
      } else {
        assert t[0] == t[..HeadLen(t)][0] == s[..n][0] == s[0];
        if Lex(s).None? && s[0] == '?' {
          if names == [] {
            NothingToRestore(s);
          }
        } else {
          SamePrefixSameRest(s[..n], Restored(t[HeadLen(t)..], names), s[n..]);
        }
      }
    }
  }

  lemma SamePrefixSameRest(a: string, b: string, c: string)
    ensures a + b == a + c <==> b == c
  {
    assert (a + b)[|a|..] == b && (a + c)[|a|..] == c;
  }

  lemma NothingRestored()
    ensures Restored(Rewritten([]), Names(Pieces([]))) == [] && PlainParamsLast([])
  {
  }

  /** Without markers the text stays as it is. */
  lemma {:induction false} NothingToRestore(s: string)
    requires Names(Pieces(s)) == []
    ensures Rewritten(s) == s && Restored(s, []) == s
    decreases |s|
  {
    hide Lex, MarkerLen, HeadLen, Rewritten, Restored, Names, Pieces;
    if s == [] {
      NoPieces();
      NothingRestored();
    } else {
      var n := HeadLen(s);
      NamesStep(s);
      RewrittenStep(s);
      RestoredStep(s, []);
      NothingToRestore(s[n..]);
      PlainStep(s);
      assert s[..n] + s[n..] == s;
    }
  }

  lemma PlainStep(s: string)
    requires s != []
    ensures PlainParamsLast(s) ==
      if Lex(s).None? && MarkerLen(s) > 0 then PlainParamsLast(s[MarkerLen(s)..])
      else if Lex(s).None? && s[0] == '?' then Names(Pieces(s)) == []
      else PlainParamsLast(s[HeadLen(s)..])
    ensures Lex(s).None? ==> HeadLen(s) == 1
  {
  }

  // ---- the same regions as the scanner --------------------------------------------------------

  /** Every character's class as the rewriter sees it: a marker is code. */
  function PieceMarks(s: string): (m: seq<Mark>)
    ensures |m| == |s|
  {
    if s == [] then []
    else if Lex(s).None? && MarkerLen(s) > 0 then Repeat(Code, MarkerLen(s)) + PieceMarks(s[MarkerLen(s)..])
    else Repeat(HeadMark(s), HeadLen(s)) + PieceMarks(s[HeadLen(s)..])
  }

  /** A marker whose last letter and the quote behind it look like the start of a q-literal. */
  predicate Misread(s: string) {
    var n := MarkerLen(s);
    0 < n < |s| && (s[n - 1] == 'q' || s[n - 1] == 'Q') && s[n] == '\''
  }

  predicate NoneMisread(s: string)
  {
    s == [] ||
    if Lex(s).None? && MarkerLen(s) > 0 then !Misread(s) && NoneMisread(s[MarkerLen(s)..])
    else NoneMisread(s[HeadLen(s)..])
  }

  lemma {:induction false} PlainMarks(s: string, n: nat)
    requires n <= |s| && forall k | 0 <= k < n :: IsIdentPart(s[k]) || s[k] == '@'
    requires 0 < n < |s| && (s[n - 1] == 'q' || s[n - 1] == 'Q') ==> s[n] != '\''
    ensures Marks(s) == Repeat(Code, n) + Marks(s[n..])
  {
    hide Lex, Marks, Repeat;
    if n > 0 {
      NoRegion(s);
      PlainHeadMark(s);
      PlainMarks(s[1..], n - 1);
      RepeatMore(s, n);
    } else {
      assert s[0..] == s && Repeat(Code, 0) == [];
    }
  }

  lemma RepeatMore(s: string, n: nat)
    requires 0 < n <= |s|
    ensures [Code] + (Repeat(Code, n - 1) + Marks(s[1..][n - 1..])) == Repeat(Code, n) + Marks(s[n..])
  {
    hide Marks;
    assert s[1..][n - 1..] == s[n..];
  }

  lemma PlainHeadMark(s: string)
    requires s != [] && Lex(s).None?
    ensures Marks(s) == [Code] + Marks(s[1..])
  {
  }

  lemma MisreadMarks(s: string)
    requires Misread(s)
    ensures Marks(s)[MarkerLen(s) - 1] != Code
  {
    var n := MarkerLen(s) - 1;
    PlainMarks(s, n);
    assert Marks(s)[n] == Marks(s[n..])[0];
    assert PairAt(s[n..], 0, s[n], '\'');
    MarksHead(s[n..]);
  }

  /**
   * The rewriter skips exactly what the scanner calls comments and literals, if
   * and only if no marker name ends in q directly before a quote.
   */
  lemma {:induction false} SameRegions(s: string)
    ensures PieceMarks(s) == Marks(s) <==> NoneMisread(s)
    decreases |s|
  {
    hide Lex, Marks, MarkerLen, HeadLen, HeadMark;
    if s == [] {
      NoMarks(s);
    } else if Lex(s).None? && MarkerLen(s) > 0 {
      var n := MarkerLen(s);
      SameRegions(s[n..]);
      if Misread(s) {
        MisreadMarks(s);
        assert PieceMarks(s)[n - 1] == Code;
      } else {
        PlainMarks(s, n);
        SamePrefix(Repeat(Code, n), PieceMarks(s[n..]), Marks(s[n..]));
      }
    } else {
      MarksSplit(s);
      SameRegions(s[HeadLen(s)..]);
      SamePrefix(Repeat(HeadMark(s), HeadLen(s)), PieceMarks(s[HeadLen(s)..]), Marks(s[HeadLen(s)..]));
    }
  }

  lemma SamePrefix<T>(a: seq<T>, b: seq<T>, c: seq<T>)
    ensures a + b == a + c <==> b == c
  {
    assert (a + b)[|a|..] == b && (a + c)[|a|..] == c;
  }

  // ---- the loops ------------------------------------------------------------------------------

  /** What is out already, the run not copied yet, and what is still to come make the result. */
  ghost predicate Pending(sql: string, out: string, names: seq<string>, last: nat, i: nat) {
    && last <= i <= |sql|
    && out + (sql[last..i] + Rewritten(sql[i..])) == Rewritten(sql)
    && names + Names(Pieces(sql[i..])) == Names(Pieces(sql))
  }

  lemma OverMarker(sql: string, out: string, names: seq<string>, last: nat, i: nat, end: nat)
    requires Pending(sql, out, names, last, i) && i < end <= |sql|
    requires Lex(sql[i..]).None? && end - i == MarkerLen(sql[i..])
    ensures Pending(sql, out + (sql[last..i] + "?"), names + [sql[i + 1..end]], end, end)
  {
    hide Lex, MarkerLen, HeadLen, Rewritten, Names, Pieces;
    var (s, rest) := (sql[i..], Rewritten(sql[end..]));
    RewrittenStep(s);
    NamesStep(s);
    assert s[end - i..] == sql[end..] && s[1..end - i] == sql[i + 1..end];
    Glue(out, sql[last..i], "?", rest);
    assert sql[end..end] + rest == rest;
    assert names + ([sql[i + 1..end]] + Names(Pieces(sql[end..]))) ==
      (names + [sql[i + 1..end]]) + Names(Pieces(sql[end..]));
  }

  lemma OverVerbatim(sql: string, out: string, names: seq<string>, last: nat, i: nat, end: nat)
    requires Pending(sql, out, names, last, i) && i < end <= |sql|
    requires !(Lex(sql[i..]).None? && MarkerLen(sql[i..]) > 0) && end - i == HeadLen(sql[i..])
    ensures Pending(sql, out, names, last, end)
  {
    hide Lex, MarkerLen, HeadLen, Rewritten, Names, Pieces;
    var (s, rest) := (sql[i..], Rewritten(sql[end..]));
    RewrittenStep(s);
    NamesStep(s);
    assert s[end - i..] == sql[end..] && s[..end - i] == sql[i..end];
    Adjacent(sql, last, i, end);
    Glue(out, sql[last..i], sql[i..end], rest);
  }

  lemma Adjacent(s: string, a: nat, b: nat, c: nat)
    requires a <= b <= c <= |s|
    ensures s[a..b] + s[b..c] == s[a..c]
  {
  }

  lemma Glue(out: string, a: string, b: string, r: string)
    ensures out + (a + (b + r)) == (out + (a + b)) + r == out + ((a + b) + r)
  {
  }

  lemma AtEnds(sql: string, out: string, names: seq<string>, last: nat)
    ensures Pending(sql, "", [], 0, 0)
    ensures Pending(sql, out, names, last, |sql|) ==> out + sql[last..] == Rewritten(sql) && names == Names(Pieces(sql))
  {
    NoPieces();
    assert sql[0..] == sql && sql[|sql|..] == [] && last <= |sql| ==>
      sql[last..|sql|] == sql[last..] == sql[last..] + [];
    assert sql[0..0] + Rewritten(sql) == Rewritten(sql);
  }

  method RewriteNamedParams(sql: string) returns (out: string, names: seq<string>)
    ensures out == Rewritten(sql) && names == Names(Pieces(sql))
  {
    hide Lex, MarkerLen, HeadLen, Rewritten, Names, Pieces, Pending;
    names, out := [], "";
    var last: nat, i: nat := 0, 0;
    AtEnds(sql, out, names, last);
    while i < |sql|
      invariant 0 <= last <= i <= |sql| && Pending(sql, out, names, last, i)
    {
      var end, marker := Next(sql, i);
      if marker {
        OverMarker(sql, out, names, last, i, end);
        out := out + (sql[last..i] + "?");
        names := names + [sql[i + 1..end]];
        last := end;
      } else {
        OverVerbatim(sql, out, names, last, i, end);
      }
      i := end;
    }
    AtEnds(sql, out, names, last);
    out := out + sql[last..];
  }

  /** From `i`, past a region, a marker or one plain character. */
  method Next(sql: string, i: nat) returns (end: nat, marker: bool)
    requires i < |sql|
    ensures i < end <= |sql|
    ensures var s := sql[i..];
      && (marker <==> Lex(s).None? && MarkerLen(s) > 0)
      && end == i + if marker then MarkerLen(s) else HeadLen(s)
  {
    hide Lex, FindPair, LineLen, QuoteLen, IdentLen;
    var (n, c, s) := (|sql|, sql[i], sql[i..]);
    var skipped := SkipRegion(sql, i);
    if skipped > i { return skipped, false; }
    if c == '@' && i + 1 < n && IsLetter(sql[i + 1]) {
      var j := i + 2;
      while j < n && IsIdentPart(sql[j])
        invariant i + 2 <= j <= n && IdentLen(sql[i + 2..]) == j - (i + 2) + IdentLen(sql[j..])
      {
        IdentStep(sql[j..]);
        assert sql[j..][1..] == sql[j + 1..];
        j := j + 1;
      }
      IdentStop(sql[j..]);
      assert s[2..] == sql[i + 2..];
      return j, true;
    }
    return i + 1, false;
  }

  /** The end of the region at `i`; `i` itself when there is none. */
  method SkipRegion(sql: string, i: nat) returns (end: nat)
    requires i < |sql|
    ensures var r := Lex(sql[i..]); end == i + (if r.None? then 0 else r.value.len)
  {
    hide FindPair, LineLen, QuoteLen;
    var (n, c, s) := (|sql|, sql[i], sql[i..]);
    var next := if i + 1 < n then Some(sql[i + 1]) else None;
    assert |s| > 1 <==> next.Some?;
    assert s[0] == c && (next.Some? ==> s[1] == next.value);
    if c == '-' && next == Some('-') {
      assert s[2..] == sql[i + 2..];
      end := ScanLine(sql, i + 2);
    } else if c == '/' && next == Some('*') {
      assert s[2..] == sql[i + 2..];
      end := ScanPair(sql, i + 2, '*', '/');
      end := Min(end + 2, n);
    } else if c == '\'' || c == '"' {
      assert s[1..] == sql[i + 1..];
      var terminated;
      end, terminated := ScanQuote(sql, i + 1, c);
    } else if (c == 'q' || c == 'Q') && next == Some('\'') {
      if i + 2 >= n { return n; }
      assert s[3..] == sql[i + 3..] && s[2] == sql[i + 2];
      end := ScanPair(sql, i + 3, Closer(sql[i + 2]), '\'');
      end := Min(end + 2, n);
    } else {
      NoRegion(s);
      end := i;
    }
  }

  lemma IdentStop(s: string)
    requires s == [] || !IsIdentPart(s[0])
    ensures IdentLen(s) == 0
  {
  }

  lemma IdentStep(s: string)
    requires s != [] && IsIdentPart(s[0])
    ensures IdentLen(s) == 1 + IdentLen(s[1..])
  {
  }

  // ---- binding --------------------------------------------------------------------------------

  datatype Bound<T> = Values(values: seq<T>) | Missing(names: seq<string>)

  /** Values in the order of the markers; an absent name is an error that lists each one once. */
  method BindNamedParams<T>(names: seq<string>, params: map<string, T>) returns (r: Bound<T>)
    ensures r.Values? <==> forall k | 0 <= k < |names| :: names[k] in params
    ensures r.Values? ==> |r.values| == |names| && forall k | 0 <= k < |names| :: r.values[k] == params[names[k]]
    ensures r.Missing? ==> forall n :: n in r.names <==> n in names && n !in params
    ensures r.Missing? ==> forall i, j | 0 <= i < j < |r.names| :: r.names[i] != r.names[j]
  {
    var missing: seq<string> := [];
    var out: seq<T> := [];
    for i := 0 to |names|
      invariant forall n :: n in missing <==> n in names[..i] && n !in params
      invariant forall j, k | 0 <= j < k < |missing| :: missing[j] != missing[k]
      invariant missing == [] ==> |out| == i && forall k | 0 <= k < i ::
        names[k] in params && out[k] == params[names[k]]
      invariant missing != [] ==> missing[0] in names && missing[0] !in params
    {
      assert names[..i + 1] == names[..i] + [names[i]];
      if names[i] !in params {
        if names[i] !in missing { missing := missing + [names[i]]; }
      } else {
        out := out + [params[names[i]]];
      }
    }
    assert names[..|names|] == names;
    r := if missing == [] then Values(out) else Missing(missing);
  }
}
