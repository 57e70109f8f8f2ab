/**
 * Expansion of `*` and `alias.*` into column lists (api/expand-star.ts): tokens,
 * select items, the mapping of items to described columns, the filter, the splice.
 */
module ExpandStar {
  import opened Scanner
  import opened Text
  import opened WireTypes

  /** A described column, with the FROM alias and the relation it comes from. */
  datatype Output = Output(field: string, relationAlias: Option<string>, relation: Option<string>)

  function AliasOf(d: Output): string
  {
    if d.relationAlias.Some? then d.relationAlias.value else if d.relation.Some? then d.relation.value else ""
  }

  /** A select item: an expression makes one column, a star makes those of its table, or all. */
  datatype Item = Expression | Bare | Qualified(key: string)

  datatype Fault = Unmapped | NotMatched | MatchedNothing | CountMismatch | Union | BareMixed | NothingLeft

  datatype Mapping = Mapped(ends: seq<int>) | Failed(fault: Fault)

  // ---- mapping items to runs of outputs ---------------------------------------------------

  predicate Matches(outputs: seq<Output>, i: int, key: string) { 0 <= i < |outputs| && AliasOf(outputs[i]) == key }

  /** The end of the run of outputs with this alias. */
  function GreedyEnd(outputs: seq<Output>, i: nat, key: string): (e: nat)
    requires i <= |outputs|
    ensures i <= e <= |outputs| && !Matches(outputs, e, key)
    ensures forall k | i <= k < e :: Matches(outputs, k, key)
    decreases |outputs| - i
  {
    if Matches(outputs, i, key) then GreedyEnd(outputs, i + 1, key) else i
  }

  /** An index of a JavaScript slice: a negative one counts from the back. */
  function Clamp(i: int, n: nat): (c: nat)
    ensures c <= n && (0 <= i <= n ==> c == i)
  {
    if i < 0 then Max(0, n + i) else Min(i, n)
  }

  function Slice(outputs: seq<Output>, from: int, to: int): seq<Output>
  {
    var (lo, hi) := (Clamp(from, |outputs|), Clamp(to, |outputs|));
    if lo < hi then outputs[lo..hi] else []
  }

  /** One item mapped: where its run ends, or why it has none. */
  datatype Move = To(end: int) | Stop(fault: Fault)

  /**
   * An expression takes one output, a bare star what the others leave, a qualified
   * star all that match, but for one per later item.
   */
  function Advance(item: Item, outputs: seq<Output>, total: nat, remaining: nat, cursor: int): Move
  {
    match item
    case Expression => To(cursor + 1)
    case Bare =>
      var run := |outputs| - (total - 1);
      if run < 1 then Stop(Unmapped) else To(cursor + run)
    case Qualified(key) =>
      if !Matches(outputs, cursor, key) then Stop(NotMatched)
      else
        var end := RunEnd(outputs, cursor, key, remaining);
        if Slice(outputs, cursor, end) == [] then Stop(MatchedNothing) else To(end)
  }

  /** Where each item's run ends; of `total` select items, `items` are those still to be mapped. */
  function Map(items: seq<Item>, outputs: seq<Output>, total: nat, cursor: int): Mapping
  {
    if items == [] then if cursor == |outputs| then Mapped([]) else Failed(CountMismatch)
    else
      match Advance(items[0], outputs, total, |items| - 1, cursor)
      case Stop(fault) => Failed(fault)
      case To(end) => Then(end, Map(items[1..], outputs, total, end))
  }

  function RunEnd(outputs: seq<Output>, cursor: int, key: string, remaining: nat): int
    requires Matches(outputs, cursor, key)
  {
    var greedy := GreedyEnd(outputs, cursor, key);
    if |outputs| - greedy < remaining then |outputs| - remaining else greedy
  }

  function Then(end: int, rest: Mapping): Mapping { if rest.Mapped? then Mapped([end] + rest.ends) else rest }

  /** A run that an item can stand for. */
  predicate Run(item: Item, outputs: seq<Output>, from: int, to: int) {
    && 0 <= from < to <= |outputs|
    && (item.Expression? ==> to == from + 1)
    && (item.Qualified? ==> forall k | from <= k < to :: Matches(outputs, k, item.key))
  }

  /** `ends` cuts the outputs from `cursor` on into one run per item, in order. */
  predicate Partitions(ends: seq<int>, items: seq<Item>, outputs: seq<Output>, cursor: int)
  {
    if items == [] then ends == [] && cursor == |outputs|
    else ends != [] && Run(items[0], outputs, cursor, ends[0]) && Partitions(ends[1..], items[1..], outputs, ends[0])
  }

  lemma {:induction false} PartitionBound(ends: seq<int>, items: seq<Item>, outputs: seq<Output>, cursor: int)
    requires Partitions(ends, items, outputs, cursor)
    ensures cursor + |items| <= |outputs| && |ends| == |items|
    ensures (forall i | 0 <= i < |items| :: items[i].Expression?) ==> cursor + |items| == |outputs|
  {
    if items != [] {
      assert (forall i | 0 <= i < |items| :: items[i].Expression?) ==> forall i | 0 <= i < |items| - 1 ::
        items[1..][i].Expression?;
      PartitionBound(ends[1..], items[1..], outputs, ends[0]);
    }
  }

  /** With at least one output per item, what the mapping returns is a partition. */
  lemma {:induction false} MapPartitions(items: seq<Item>, outputs: seq<Output>, total: nat, cursor: nat)
    requires |items| <= total <= |outputs| && Map(items, outputs, total, cursor).Mapped?
    ensures Partitions(Map(items, outputs, total, cursor).ends, items, outputs, cursor)
  {
    if items != [] {
      var ends := Map(items, outputs, total, cursor).ends;
      var rest := Map(items[1..], outputs, total, ends[0]);
      assert rest.Mapped? && ends == [ends[0]] + rest.ends && ends[1..] == rest.ends;
      MapPartitions(items[1..], outputs, total, ends[0]);
      PartitionBound(rest.ends, items[1..], outputs, ends[0]);
    }
  }

  /**
   * A qualified star's run is recognised: what follows it has another alias, or
   * every later item makes exactly one column.
   */
  predicate Recognised(end: int, item: Item, outputs: seq<Output>, remaining: nat) {
    item.Qualified? ==> !Matches(outputs, end, item.key) || |outputs| - end == remaining
  }

  predicate AllRecognised(ends: seq<int>, items: seq<Item>, outputs: seq<Output>)
    requires |ends| == |items|
  {
    items == [] ||
    (Recognised(ends[0], items[0], outputs, |items| - 1) && AllRecognised(ends[1..], items[1..], outputs))
  }

  lemma RunEndExactly(outputs: seq<Output>, cursor: nat, key: string, remaining: nat, end: int)
    requires Run(Qualified(key), outputs, cursor, end) && end + remaining <= |outputs|
    ensures Matches(outputs, cursor, key)
    ensures RunEnd(outputs, cursor, key, remaining) == end <==> Recognised(end, Qualified(key), outputs, remaining)
  {
    var greedy := GreedyEnd(outputs, cursor, key);
    assert greedy < end ==> Matches(outputs, greedy, key);
    if greedy > end { assert Matches(outputs, end, key); }
  }

  /**
   * Of any true partition of the outputs the mapping recovers every run, if and
   * only if each qualified star in it is recognised. A bare star, the source has
   * checked by now, has only expressions beside it: `before` is how many precede.
   */
  lemma {:induction false} MapRecovers(items: seq<Item>, outputs: seq<Output>, total: nat, cursor: nat, ends: seq<int>)
    requires Partitions(ends, items, outputs, cursor) && |ends| == |items| <= total
    requires forall i | 0 <= i < |items| && items[i].Bare? ::
               cursor == total - |items| && forall j | 0 <= j < |items| && i != j :: items[j].Expression?
    ensures Map(items, outputs, total, cursor) == Mapped(ends) <==> AllRecognised(ends, items, outputs)
  {
    hide GreedyEnd, RunEnd, Slice, AliasOf;
    if items != [] {
      var (item, end, rest, tail) := (items[0], ends[0], items[1..], ends[1..]);
      assert ends == [end] + tail && forall i | 0 <= i < |rest| :: rest[i] == items[i + 1];
      PartitionBound(tail, rest, outputs, end);
      if item.Qualified? {
        RunEndExactly(outputs, cursor, item.key, |rest|, end);
        NotEmptySlice(outputs, cursor, end);
      }
      if Recognised(end, item, outputs, |rest|) { MapRecovers(rest, outputs, total, end, tail); }
    }
  }

  lemma NotEmptySlice(outputs: seq<Output>, from: nat, to: nat)
    requires from < to <= |outputs|
    ensures Slice(outputs, from, to) != []
  {
  }

  /** A mapping as the runs it names: they cover the outputs in order, and each star's carries its alias. */
  lemma {:induction false} PartitionRuns(ends: seq<int>, items: seq<Item>, outputs: seq<Output>, cursor: int, i: nat)
    requires Partitions(ends, items, outputs, cursor) && i < |items|
    ensures |ends| == |items| && ends[|ends| - 1] == |outputs|
    ensures Run(items[i], outputs, if i == 0 then cursor else ends[i - 1], ends[i])
  {
    PartitionBound(ends, items, outputs, cursor);
    if |items| > 1 { PartitionRuns(ends[1..], items[1..], outputs, ends[0], if i == 0 then 0 else i - 1); }
  }

  /**
   * `a.*, a.id, b.*` over a table b of two columns: the mapping gives a's star a
   * third column and b's star only its last one, and the final count agrees.
   */
  lemma GreedyRunMisplaced()
    ensures var (a, b) := (Output("X", Some("A"), None), Output("Y", Some("B"), None));
      var items := [Qualified("A"), Expression, Qualified("B")];
      var outputs := [a, a, a, b, b];
      && Partitions([2, 3, 5], items, outputs, 0)
      && Map(items, outputs, 3, 0) == Mapped([3, 4, 5])
  {
    var (a, b) := (Output("X", Some("A"), None), Output("Y", Some("B"), None));
    var (items, outputs) := ([Qualified("A"), Expression, Qualified("B")], [a, a, a, b, b]);
    assert items[1..] == [Expression, Qualified("B")] && items[1..][1..] == [Qualified("B")];
    assert GreedyEnd(outputs, 3, "A") == 3 && GreedyEnd(outputs, 2, "A") == 3 && GreedyEnd(outputs, 1, "A") == 3;
    assert GreedyEnd(outputs, 0, "A") == 3;
    assert GreedyEnd(outputs, 4, "B") == 5;
    assert Map([], outputs, 3, 5) == Mapped([]);
    assert Map([Qualified("B")], outputs, 3, 4) == Mapped([5]);
    assert Map([Expression, Qualified("B")], outputs, 3, 3) == Mapped([4, 5]);
    var ends := [2, 3, 5];
    assert ends[1..] == [3, 5] && ends[1..][1..] == [5] && ends[1..][1..][1..] == [];
    assert Partitions([5], [Qualified("B")], outputs, 3);
    assert Partitions([3, 5], [Expression, Qualified("B")], outputs, 2);
  }

  /** A lone bare star is mapped, whatever stands beside it, if and only if there is an output for each item. */
  lemma {:induction false} BareMapsExactly(items: seq<Item>, outputs: seq<Output>, total: nat, cursor: nat, i: nat)
    requires i < |items| <= total && cursor == total - |items| && items[i].Bare?
    requires forall j | 0 <= j < |items| && j != i :: items[j].Expression?
    ensures if total <= |outputs| then Map(items, outputs, total, cursor).Mapped?
            else Map(items, outputs, total, cursor) == Failed(Unmapped)
  {
    if i > 0 {
      BareMapsExactly(items[1..], outputs, total, cursor + 1, i - 1);
    } else if total <= |outputs| {
      ExpressionsMapExactly(items[1..], outputs, total, cursor + |outputs| - (total - 1));
    }
  }

  /** Expressions alone are mapped if and only if each has its output and none is left. */
  lemma {:induction false} ExpressionsMapExactly(items: seq<Item>, outputs: seq<Output>, total: nat, cursor: int)
    requires forall j | 0 <= j < |items| :: items[j].Expression?
    ensures var m := Map(items, outputs, total, cursor);
      if cursor + |items| == |outputs| then m.Mapped? else m == Failed(CountMismatch)
  {
    if items != [] { ExpressionsMapExactly(items[1..], outputs, total, cursor + 1); }
  }

  /**
   * The mapping of qualified stars and expressions with an output for each item fails
   * in two ways only: a star meets an output of another alias, or outputs are left.
   */
  lemma {:induction false} MapFaults(items: seq<Item>, outputs: seq<Output>, total: nat, cursor: nat)
    requires cursor + |items| <= |outputs| && forall j | 0 <= j < |items| :: !items[j].Bare?
    ensures var m := Map(items, outputs, total, cursor);
      && (m.Failed? ==> m.fault == NotMatched || m.fault == CountMismatch)
      && (items != [] && items[0].Qualified? && !Matches(outputs, cursor, items[0].key) ==> m == Failed(NotMatched))
  {
    if items != [] {
      var a := Advance(items[0], outputs, total, |items| - 1, cursor);
      if a.To? { MapFaults(items[1..], outputs, total, a.end); }
      if items[0].Qualified? && Matches(outputs, cursor, items[0].key) {
        NotEmptySlice(outputs, cursor, RunEnd(outputs, cursor, items[0].key, |items| - 1));
      }
    }
  }

  // ---- the loop over the items ---------------------------------------------------------------

  method MapItems(items: seq<Item>, outputs: seq<Output>) returns (r: Mapping)
    ensures r == Map(items, outputs, |items|, 0)
  {
    hide Map, After, Advance;
    var cursor: int, idx: nat := 0, 0;
    var ends: seq<int> := [];
    assert items[0..] == items;
    AfterNone(Map(items, outputs, |items|, 0), ends);
    while idx < |items|
      invariant idx <= |items|
      invariant Map(items, outputs, |items|, 0) == After(ends, Map(items[idx..], outputs, |items|, cursor))
    {
      MapStep(items[idx..], outputs, |items|, cursor, ends);
      assert items[idx..][1..] == items[idx + 1..];
      var move := MapItem(items[idx], outputs, |items|, |items| - idx - 1, cursor);
      if move.Stop? { return Failed(move.fault); }
      cursor := move.end;
      ends := ends + [cursor];
      idx := idx + 1;
    }
    assert items[idx..] == [];
    NothingToMap(outputs, |items|, cursor, ends);
    r := if cursor == |outputs| then Mapped(ends) else Failed(CountMismatch);
  }

  method MapItem(item: Item, outputs: seq<Output>, total: nat, remaining: nat, cursor: int) returns (r: Move)
    ensures r == Advance(item, outputs, total, remaining, cursor)
  {
    match item {
      case Expression => return To(cursor + 1);
      case Bare =>
        var run := |outputs| - (total - 1);
        return if run < 1 then Stop(Unmapped) else To(cursor + run);
      case Qualified(key) =>
        if !Matches(outputs, cursor, key) { return Stop(NotMatched); }
        var end := TakeRun(outputs, cursor, key, remaining);
        return if Slice(outputs, cursor, end) == [] then Stop(MatchedNothing) else To(end);
    }
  }

  /** Consecutive outputs with the alias, but for one output per remaining item. */
  method TakeRun(outputs: seq<Output>, cursor: nat, key: string, remaining: nat) returns (end: int)
    requires Matches(outputs, cursor, key)
    ensures end == RunEnd(outputs, cursor, key, remaining)
  {
    end := cursor;
    while Matches(outputs, end, key)
      invariant cursor <= end <= |outputs|
      invariant GreedyEnd(outputs, cursor, key) == GreedyEnd(outputs, end, key)
      decreases |outputs| - end
    {
      end := end + 1;
    }
    if |outputs| - end < remaining { end := |outputs| - remaining; }
  }

  function After(ends: seq<int>, rest: Mapping): Mapping { if rest.Mapped? then Mapped(ends + rest.ends) else rest }

  lemma MapStep(items: seq<Item>, outputs: seq<Output>, total: nat, cursor: int, ends: seq<int>)
    requires items != []
    ensures After(ends, Map(items, outputs, total, cursor)) ==
      match Advance(items[0], outputs, total, |items| - 1, cursor)
      case Stop(fault) => Failed(fault)
      case To(end) => After(ends + [end], Map(items[1..], outputs, total, end))
  {
    hide Advance;
    var move := Advance(items[0], outputs, total, |items| - 1, cursor);
    if move.To? {
      var rest := Map(items[1..], outputs, total, move.end);
      if rest.Mapped? { assert ends + ([move.end] + rest.ends) == (ends + [move.end]) + rest.ends; }
    }
  }

  lemma AfterNone(m: Mapping, ends: seq<int>)
    ensures After([], m) == m && After(ends, Mapped([])) == Mapped(ends) && (m.Failed? ==> After(ends, m) == m)
  {
    assert ends + [] == ends;
    if m.Mapped? { assert [] + m.ends == m.ends; }
  }

  lemma NothingToMap(outputs: seq<Output>, total: nat, cursor: int, ends: seq<int>)
    ensures After(ends, Map([], outputs, total, cursor)) ==
      if cursor == |outputs| then Mapped(ends) else Failed(CountMismatch)
  {
    AfterNone(Mapped([]), ends);
  }

  // ---- the filter ------------------------------------------------------------------------------

  datatype Query = Query(only: Option<seq<string>>, exclude: seq<string>)

  /** Whether a star keeps the column; names may be bare or qualified, in any case. */
  predicate Kept(d: Output, qualifier: Option<string>, q: Query)
  {
    var field := Upper(d.field);
    var qualified := if qualifier.Some? && qualifier.value != "" then Upper(qualifier.value) + "." + field else field;
    && (q.only.Some? ==> field in UpperAll(q.only.value) || qualified in UpperAll(q.only.value))
    && field !in UpperAll(q.exclude) && qualified !in UpperAll(q.exclude)
  }

  function Upper(s: string): string {
    seq(|s|, i requires 0 <= i < |s| => if 'a' <= s[i] <= 'z' then (s[i] as int - 32) as char else s[i])
  }

  function UpperAll(names: seq<string>): seq<string> {
    seq(|names|, i requires 0 <= i < |names| => Upper(names[i]))
  }

  function QualifierOf(item: Item, d: Output): Option<string> {
    if item.Qualified? then Some(item.key) else d.relationAlias
  }

  function Filter(item: Item, run: seq<Output>, q: Query): seq<Output>
  {
    if run == [] then []
    else (if Kept(run[0], QualifierOf(item, run[0]), q) then [run[0]] else []) + Filter(item, run[1..], q)
  }

  /** The columns the rewritten list is to make: expressions as before, stars filtered. */
  function Filtered(items: seq<Item>, ends: seq<int>, outputs: seq<Output>, cursor: int, q: Query): seq<Output>
    requires Partitions(ends, items, outputs, cursor)
  {
    if items == [] then []
    else
      var run := outputs[cursor..ends[0]];
      (if items[0].Expression? then run else Filter(items[0], run, q)) +
      Filtered(items[1..], ends[1..], outputs, ends[0], q)
  }

  // ---- column names ----------------------------------------------------------------------------

  function Double(s: string): string
  {
    if s == [] then [] else (if s[0] == '"' then ['"', '"'] else [s[0]]) + Double(s[1..])
  }

  /** Every doubled quote made one again, from left to right. */
  function Undouble(s: string): string
  {
    if s == [] then []
    else if |s| > 1 && s[0] == '"' && s[1] == '"' then ['"'] + Undouble(s[2..])
    else [s[0]] + Undouble(s[1..])
  }

  function QuoteIdent(name: string): string { ['"'] + Double(name) + ['"'] }

  function Unquote(ident: string): string
  {
    if ident != [] && ident[0] == '"' then Undouble(if |ident| < 2 then [] else ident[1..|ident| - 1])
    else Upper(ident)
  }

  /** A quoted name reads back as itself, whatever characters it has. */
  lemma UnquoteQuoted(name: string)
    ensures Unquote(QuoteIdent(name)) == name
  {
    UndoubleDouble(name);
    assert QuoteIdent(name)[1..|QuoteIdent(name)| - 1] == Double(name);
  }

  lemma {:induction false} UndoubleDouble(s: string)
    ensures Undouble(Double(s)) == s
  {
    if s != [] {
      UndoubleDouble(s[1..]);
      var d := Double(s);
      if s[0] == '"' { assert d[2..] == Double(s[1..]); } else { assert d[1..] == Double(s[1..]); }
    }
  }

  /** A column name in the rewritten list: an optional qualifier as written, and the quoted field. */
  datatype Column = Column(qualifier: Option<string>, field: string)

  function ColumnOf(item: Item, written: string, d: Output): Column
  {
    if item.Qualified? then Column(Some(written), QuoteIdent(d.field))
    else if d.relationAlias.Some? && d.relationAlias.value != "" then
      Column(Some(QuoteIdent(d.relationAlias.value)), QuoteIdent(d.field))
    else Column(None, QuoteIdent(d.field))
  }

  /** The name means this column: the same field, and the alias it has in the query. */
  predicate Denotes(c: Column, d: Output) {
    && Unquote(c.field) == d.field
    && (c.qualifier.Some? ==> Unquote(c.qualifier.value) == AliasOf(d))
    && (c.qualifier.None? ==> d.relationAlias.None? || d.relationAlias.value == "")
  }

  /** Every name a star is replaced by means the column it stands for. */
  lemma ColumnDenotes(item: Item, written: string, outputs: seq<Output>, from: int, to: int, k: nat)
    requires !item.Expression? && Run(item, outputs, from, to) && from <= k < to
    requires item.Qualified? ==> Unquote(written) == item.key
    ensures Denotes(ColumnOf(item, written, outputs[k]), outputs[k])
  {
    UnquoteQuoted(outputs[k].field);
    if item.Qualified? {
      assert Matches(outputs, k, item.key);
    } else if outputs[k].relationAlias.Some? {
      UnquoteQuoted(outputs[k].relationAlias.value);
    }
  }

  /** Nothing asked to be dropped, nothing dropped: the list means the original outputs. */
  lemma {:induction false} NoFilterKeepsAll(items: seq<Item>, ends: seq<int>, outputs: seq<Output>, cursor: int)
    requires Partitions(ends, items, outputs, cursor) && 0 <= cursor
    ensures Filtered(items, ends, outputs, cursor, Query(None, [])) == outputs[cursor..]
  {
    if items != [] {
      NoFilterKeepsAll(items[1..], ends[1..], outputs, ends[0]);
      KeepsRun(items[0], outputs[cursor..ends[0]]);
      assert outputs[cursor..] == outputs[cursor..ends[0]] + outputs[ends[0]..];
    }
  }

  lemma {:induction false} KeepsRun(item: Item, run: seq<Output>)
    ensures Filter(item, run, Query(None, [])) == run
  {
    if run != [] { KeepsRun(item, run[1..]); }
  }

  // ---- the rewritten list ----------------------------------------------------------------------

  /** A select item as parsed: what it is, its qualifier as written, and where it stands in the text. */
  datatype Part = Part(item: Item, written: string, start: nat, end: nat)

  function Items(parts: seq<Part>): (items: seq<Item>)
    ensures |items| == |parts|
  {
    seq(|parts|, i requires 0 <= i < |parts| => parts[i].item)
  }

  /** An entry of the new list: the expression that made output `index`, or a name. */
  datatype Entry = Original(index: int) | Named(column: Column)

  function Names(part: Part, run: seq<Output>, q: Query): seq<Entry>
  {
    if run == [] then []
    else
      (if Kept(run[0], QualifierOf(part.item, run[0]), q) then [Named(ColumnOf(part.item, part.written, run[0]))]
        else []) +
      Names(part, run[1..], q)
  }

  function NewList(parts: seq<Part>, ends: seq<int>, outputs: seq<Output>, cursor: int, q: Query): seq<Entry>
    requires Partitions(ends, Items(parts), outputs, cursor)
  {
    if parts == [] then []
    else
      ItemsRest(parts);
      (if parts[0].item.Expression? then [Original(cursor)] else Names(parts[0], outputs[cursor..ends[0]], q)) +
      NewList(parts[1..], ends[1..], outputs, ends[0], q)
  }

  lemma ItemsRest(parts: seq<Part>)
    requires parts != []
    ensures Items(parts)[0] == parts[0].item && Items(parts)[1..] == Items(parts[1..])
  {
  }

  /** An entry means an output. */
  predicate Means(e: Entry, d: Output, outputs: seq<Output>) {
    match e
    case Original(i) => 0 <= i < |outputs| && outputs[i] == d
    case Named(c) => Denotes(c, d)
  }

  predicate MeansAll(es: seq<Entry>, ds: seq<Output>, outputs: seq<Output>) {
    |es| == |ds| && forall k | 0 <= k < |es| :: Means(es[k], ds[k], outputs)
  }

  lemma MeansConcat(es: seq<Entry>, es': seq<Entry>, ds: seq<Output>, ds': seq<Output>, outputs: seq<Output>)
    requires MeansAll(es, ds, outputs) && MeansAll(es', ds', outputs)
    ensures MeansAll(es + es', ds + ds', outputs)
  {
    hide Means;
    var (all, to) := (es + es', ds + ds');
    forall k | 0 <= k < |all| ensures Means(all[k], to[k], outputs) {
      if k < |es| { assert Means(es[k], ds[k], outputs); } else { assert Means(es'[k - |es|], ds'[k - |es|], outputs); }
    }
  }

  lemma {:induction false} NamesMean(part: Part, outputs: seq<Output>, from: nat, to: nat, k: nat, q: Query)
    requires !part.item.Expression? && Run(part.item, outputs, from, to) && from <= k <= to
    requires part.item.Qualified? ==> Unquote(part.written) == part.item.key
    ensures MeansAll(Names(part, outputs[k..to], q), Filter(part.item, outputs[k..to], q), outputs)
    decreases |outputs| - k
  {
    if k < to {
      var (d, rest) := (outputs[k], outputs[k + 1..to]);
      assert outputs[k..to][1..] == rest && outputs[k..to][0] == d;
      NamesMean(part, outputs, from, to, k + 1, q);
      ColumnDenotes(part.item, part.written, outputs, from, to, k);
      var name := Named(ColumnOf(part.item, part.written, d));
      if Kept(d, QualifierOf(part.item, d), q) {
        MeansConcat([name], Names(part, rest, q), [d], Filter(part.item, rest, q), outputs);
      }
    }
  }

  /**
   * The rewrite means what it should: entry by entry the new list makes the
   * original columns, in order, less what the filter drops from the stars.
   */
  lemma {:induction false} NewListMeans(parts: seq<Part>, ends: seq<int>, outputs: seq<Output>, cursor: int, q: Query)
    requires Partitions(ends, Items(parts), outputs, cursor)
    requires forall i | 0 <= i < |parts| :: parts[i].item.Qualified? ==> Unquote(parts[i].written) == parts[i].item.key
    ensures MeansAll(NewList(parts, ends, outputs, cursor, q), Filtered(Items(parts), ends, outputs, cursor, q),
      outputs)
  {
    if parts != [] {
      hide Unquote, Kept;
      ItemsRest(parts);
      NewListMeans(parts[1..], ends[1..], outputs, ends[0], q);
      var run := outputs[cursor..ends[0]];
      if !parts[0].item.Expression? { NamesMean(parts[0], outputs, cursor, ends[0], cursor, q); }
      MeansConcat(
        if parts[0].item.Expression? then [Original(cursor)] else Names(parts[0], run, q),
        NewList(parts[1..], ends[1..], outputs, ends[0], q),
        if parts[0].item.Expression? then run else Filter(parts[0].item, run, q),
        Filtered(Items(parts[1..]), ends[1..], outputs, ends[0], q), outputs);
    }
  }

  // ---- the splice --------------------------------------------------------------------------------

  datatype Replacement = Replacement(start: nat, end: nat, text: string)

  /** Apart, in order, and inside the text from `pos` on. */
  predicate Spliceable(rs: seq<Replacement>, pos: nat, n: nat) {
    if rs == [] then pos <= n else pos <= rs[0].start <= rs[0].end <= n && Spliceable(rs[1..], rs[0].end, n)
  }

  function Splice(sql: string, rs: seq<Replacement>, pos: nat): string
    requires Spliceable(rs, pos, |sql|)
  {
    if rs == [] then sql[pos..] else sql[pos..rs[0].start] + rs[0].text + Splice(sql, rs[1..], rs[0].end)
  }

  method SpliceAll(sql: string, rs: seq<Replacement>) returns (out: string)
    requires Spliceable(rs, 0, |sql|)
    ensures out == Splice(sql, rs, 0)
  {
    out := "";
    var pos := 0;
    assert rs[0..] == rs && "" + Splice(sql, rs, 0) == Splice(sql, rs, 0);
    for i := 0 to |rs|
      invariant 0 <= pos && Spliceable(rs[i..], pos, |sql|)
      invariant out + Splice(sql, rs[i..], pos) == Splice(sql, rs, 0)
    {
      var r := rs[i];
      assert rs[i..][1..] == rs[i + 1..];
      ghost var rest := Splice(sql, rs[i + 1..], r.end);
      assert out + (sql[pos..r.start] + r.text + rest) == (out + (sql[pos..r.start] + r.text)) + rest;
      out := out + (sql[pos..r.start] + r.text);
      pos := r.end;
    }
    assert rs[|rs|..] == [];
    out := out + sql[pos..];
  }

  /** Where a position outside the replaced spans is found afterwards. */
  function Moved(rs: seq<Replacement>, i: int): int
  {
    if rs == [] || i < rs[0].start then i else Moved(rs[1..], i) + |rs[0].text| - (rs[0].end - rs[0].start)
  }

  predicate Outside(rs: seq<Replacement>, i: int) { forall k | 0 <= k < |rs| :: i < rs[k].start || rs[k].end <= i }

  /** Characters outside the replaced spans are all still there, each moved as far as the spans before it grew. */
  lemma {:induction false} SpliceKeeps(sql: string, rs: seq<Replacement>, pos: nat, i: nat)
    requires Spliceable(rs, pos, |sql|) && pos <= i < |sql| && Outside(rs, i)
    ensures 0 <= Moved(rs, i) - pos < |Splice(sql, rs, pos)|
    ensures Splice(sql, rs, pos)[Moved(rs, i) - pos] == sql[i]
  {
    if rs != [] && i >= rs[0].start {
      assert Outside(rs[1..], i) by { assert forall k | 0 <= k < |rs| - 1 :: rs[1..][k] == rs[k + 1]; }
      assert i >= rs[0].end;
      SpliceKeeps(sql, rs[1..], rs[0].end, i);
    }
  }

  // ---- tokens ------------------------------------------------------------------------------------

  datatype Token = Token(text: string, start: nat, end: nat, depth: int)
  {
    predicate Is(word: string) { Lower(text) == word }
    predicate Top() { depth == 0 }
  }

  predicate IsIdStart(c: char) {
    'a' <= c <= 'z' || 'A' <= c <= 'Z' || c == '_' || c == '$' || '\U{0080}' <= c <= '\U{FFFF}'
  }

  function WordLen(s: string): (n: nat)
    ensures n <= |s|
  {
    if s == [] || !(IsIdStart(s[0]) || IsDigit(s[0])) then 0 else 1 + WordLen(s[1..])
  }

  function NumberLen(s: string): (n: nat)
    ensures n <= |s|
  {
    if s == [] || !(IsDigit(s[0]) || s[0] == '.') then 0 else 1 + NumberLen(s[1..])
  }

  function Through(found: Option<nat>, extra: nat, all: nat): nat
  {
    if found.None? then all else Min(found.value + extra, all)
  }

  /** Length of what the text starts with, and whether it is a token; literals, comments and blanks are not. */
  function HeadToken(s: string): (r: (nat, bool))
    requires s != []
    ensures 0 < r.0 <= |s|
  {
    if IsSpace(s[0]) then (1, false)
    else if PairAt(s, 0, '-', '-') then (Min(IndexOf(s, "\n") + 1, |s|), false)
    else if PairAt(s, 0, '/', '*') then (Through(FindPair(s[2..], '*', '/'), 4, |s|), false)
    else if s[0] == '\'' then (Through(QuoteLen(s[1..], '\''), 1, |s|), false)
    else if (s[0] == 'q' || s[0] == 'Q') && |s| > 2 && s[1] == '\'' then
      (Through(FindPair(s[3..], Closer(s[2]), '\''), 5, |s|), false)
    else if s[0] == '"' then (Through(QuoteLen(s[1..], '"'), 1, |s|), true)
    else if IsIdStart(s[0]) then (1 + WordLen(s[1..]), true)
    else if IsDigit(s[0]) then (1 + NumberLen(s[1..]), true)
    else (1, true)
  }

  function Tokens(sql: string, i: nat, depth: int): seq<Token>
    requires i <= |sql|
    decreases |sql| - i
  {
    if i == |sql| then []
    else
      var (n, emits) := HeadToken(sql[i..]);
      var t := sql[i..i + n];
      var inner := if t == ")" then depth - 1 else depth;
      (if emits then [Token(t, i, i + n, inner)] else []) + Tokens(sql, i + n, if t == "(" then depth + 1 else inner)
  }

  method Tokenize(sql: string) returns (toks: seq<Token>)
    ensures toks == Tokens(sql, 0, 0)
  {
    hide HeadToken, Tokens;
    toks := [];
    assert [] + Tokens(sql, 0, 0) == Tokens(sql, 0, 0);
    var i: nat, depth: int := 0, 0;
    while i < |sql|
      invariant 0 <= i <= |sql| && toks + Tokens(sql, i, depth) == Tokens(sql, 0, 0)
      decreases |sql| - i
    {
      TokensStep(sql, i, depth, toks);
      var (n, emits) := HeadToken(sql[i..]);
      var t := sql[i..i + n];
      if t == ")" { depth := depth - 1; }
      if emits { toks := toks + [Token(t, i, i + n, depth)]; }
      if t == "(" { depth := depth + 1; }
      i := i + n;
    }
    NoTokens(sql, depth);
    assert toks + [] == toks;
  }

  lemma NoTokens(sql: string, depth: int)
    ensures Tokens(sql, |sql|, depth) == []
  {
  }

  lemma TokensStep(sql: string, i: nat, depth: int, toks: seq<Token>)
    requires i < |sql|
    ensures var (n, emits) := HeadToken(sql[i..]); var t := sql[i..i + n];
      var inner := if t == ")" then depth - 1 else depth;
      toks + Tokens(sql, i, depth) ==
        (if emits then toks + [Token(t, i, i + n, inner)] else toks) +
        Tokens(sql, i + n, if t == "(" then depth + 1 else inner)
  {
    hide HeadToken;
  }

  /** Tokens are apart, in order, and spell the text they stand for. */
  predicate Ordered(toks: seq<Token>, from: nat, sql: string) {
    if toks == [] then from <= |sql|
    else from <= toks[0].start < toks[0].end <= |sql| && toks[0].text == sql[toks[0].start..toks[0].end] &&
         Ordered(toks[1..], toks[0].end, sql)
  }

  lemma {:induction false} OrderedFrom(toks: seq<Token>, from: nat, from': nat, sql: string)
    requires Ordered(toks, from, sql) && from' <= from
    ensures Ordered(toks, from', sql)
  {
    if toks != [] { OrderedFrom(toks[1..], toks[0].end, toks[0].end, sql); }
  }

  lemma {:induction false} TokensOrdered(sql: string, i: nat, depth: int)
    requires i <= |sql|
    ensures Ordered(Tokens(sql, i, depth), i, sql)
    decreases |sql| - i
  {
    hide HeadToken, Tokens, Ordered;
    if i == |sql| {
      NoTokens(sql, depth);
      NoneOrdered(i, sql);
    } else {
      var (n, emits) := HeadToken(sql[i..]);
      var t := sql[i..i + n];
      var inner := if t == ")" then depth - 1 else depth;
      var rest := Tokens(sql, i + n, if t == "(" then depth + 1 else inner);
      TokensOrdered(sql, i + n, if t == "(" then depth + 1 else inner);
      TokensStep(sql, i, depth, []);
      assert [] + Tokens(sql, i, depth) == Tokens(sql, i, depth) && [] + rest == rest;
      if emits {
        OrderedPush(Token(t, i, i + n, inner), rest, sql);
        assert [] + [Token(t, i, i + n, inner)] == [Token(t, i, i + n, inner)];
      } else {
        OrderedFrom(rest, i + n, i, sql);
      }
    }
  }

  lemma NoneOrdered(from: nat, sql: string)
    requires from <= |sql|
    ensures Ordered([], from, sql)
  {
  }

  lemma OrderedPush(tok: Token, rest: seq<Token>, sql: string)
    requires tok.start < tok.end <= |sql| && tok.text == sql[tok.start..tok.end] && Ordered(rest, tok.end, sql)
    ensures Ordered([tok] + rest, tok.start, sql)
  {
    assert ([tok] + rest)[1..] == rest;
  }

  /** From some token on; what is before has ended by `from`. */
  lemma {:induction false} OrderedDrop(toks: seq<Token>, from: nat, sql: string, k: nat)
    requires Ordered(toks, from, sql) && k <= |toks|
    ensures Ordered(toks[k..], if k == 0 then from else toks[k - 1].end, sql)
  {
    if k > 0 {
      OrderedDrop(toks[1..], toks[0].end, sql, k - 1);
      assert toks[1..][k - 1..] == toks[k..];
    } else {
      assert toks[0..] == toks;
    }
  }

  lemma {:induction false} OrderedEnds(toks: seq<Token>, from: nat, sql: string, i: nat, j: nat)
    requires Ordered(toks, from, sql) && i <= j < |toks|
    ensures from <= toks[i].start < toks[i].end <= toks[j].end <= |sql|
    ensures i < j ==> toks[i].end <= toks[j].start
  {
    if i > 0 {
      OrderedEnds(toks[1..], toks[0].end, sql, i - 1, j - 1);
    } else if j > 0 {
      OrderedEnds(toks[1..], toks[0].end, sql, 0, j - 1);
      OrderedEnds(toks[1..], toks[0].end, sql, j - 1, j - 1);
    }
  }

  // ---- select items --------------------------------------------------------------------------------

  /** The first token from `i` on that is this word outside parentheses. */
  function Find(toks: seq<Token>, i: nat, word: string): (k: nat)
    requires i <= |toks|
    ensures i <= k <= |toks| && (k < |toks| ==> toks[k].Top() && toks[k].Is(word))
    decreases |toks| - i
  {
    if i == |toks| || (toks[i].Top() && toks[i].Is(word)) then i else Find(toks, i + 1, word)
  }

  function FindClose(toks: seq<Token>, i: nat): (k: nat)
    requires i <= |toks|
    ensures i <= k <= |toks|
    decreases |toks| - i
  {
    if i == |toks| || (toks[i].Is(")") && toks[i].Top()) then i else FindClose(toks, i + 1)
  }

  /** Past FIRST and SKIP with their argument. */
  function SkipLimits(list: seq<Token>, p: nat): (k: nat)
    requires p <= |list|
    ensures p <= k <= |list|
    decreases |list| - p
  {
    if p == |list| || !(list[p].Is("first") || list[p].Is("skip")) then p
    else if p + 1 < |list| && list[p + 1].Is("(") then
      SkipLimits(list, Min(FindClose(list, p + 2) + 1, |list|))
    else SkipLimits(list, Min(p + 2, |list|))
  }

  function SkipPrefix(list: seq<Token>): (k: nat)
    ensures k <= |list|
  {
    var p := SkipLimits(list, 0);
    if p < |list| && (list[p].Is("distinct") || list[p].Is("all")) then p + 1 else p
  }

  function Classify(it: seq<Token>): Part
  {
    if |it| == 1 && it[0].text == "*" then Part(Bare, "", it[0].start, it[0].end)
    else if |it| == 3 && it[1].text == "." && it[2].text == "*" && it[0].text != ")" then
      Part(Qualified(Unquote(it[0].text)), it[0].text, it[0].start, it[2].end)
    else Part(Expression, "", 0, 0)
  }

  /** The items between the commas that are outside parentheses; one begins at `from`. */
  function PartsFrom(list: seq<Token>, from: nat, k: nat): seq<Part>
    requires from <= k <= |list|
    decreases |list| - k
  {
    if k == |list| then [Classify(list[from..k])]
    else if list[k].Is(",") && list[k].Top() then [Classify(list[from..k])] + PartsFrom(list, k + 1, k + 1)
    else PartsFrom(list, from, k + 1)
  }

  predicate IsStar(p: Part) { !p.item.Expression? }

  /** Star spans are apart, in order, inside the text, and carry the qualifier they spell. */
  predicate StarsOrdered(parts: seq<Part>, pos: nat, n: nat) {
    if parts == [] then pos <= n
    else if IsStar(parts[0]) then
      && pos <= parts[0].start <= parts[0].end <= n && StarsOrdered(parts[1..], parts[0].end, n)
      && (parts[0].item.Qualified? ==> Unquote(parts[0].written) == parts[0].item.key)
    else StarsOrdered(parts[1..], pos, n)
  }

  lemma {:induction false} StarsOrderedFrom(parts: seq<Part>, pos: nat, pos': nat, n: nat)
    requires StarsOrdered(parts, pos, n) && pos' <= pos
    ensures StarsOrdered(parts, pos', n)
  {
    if parts != [] && !IsStar(parts[0]) { StarsOrderedFrom(parts[1..], pos, pos', n); }
  }

  lemma {:induction false} PartsOrdered(list: seq<Token>, from: nat, k: nat, pos: nat, sql: string)
    requires from <= k <= |list| && Ordered(list, pos, sql)
    ensures StarsOrdered(PartsFrom(list, from, k), if from == 0 then pos else list[from - 1].end, |sql|)
    decreases |list| - k
  {
    hide Unquote;
    var start := if from == 0 then pos else list[from - 1].end;
    ItemSpan(list, from, k, pos, sql);
    if k == |list| {
      assert PartsFrom(list, from, k)[1..] == [];
    } else if list[k].Is(",") && list[k].Top() {
      PartsOrdered(list, k + 1, k + 1, pos, sql);
      var rest := PartsFrom(list, k + 1, k + 1);
      assert PartsFrom(list, from, k)[1..] == rest;
      var it := Classify(list[from..k]);
      StarsOrderedFrom(rest, list[k].end, if IsStar(it) then it.end else start, |sql|);
    } else {
      PartsOrdered(list, from, k + 1, pos, sql);
    }
  }

  lemma ItemSpan(list: seq<Token>, from: nat, k: nat, pos: nat, sql: string)
    requires from <= k <= |list| && Ordered(list, pos, sql)
    ensures var start := if from == 0 then pos else list[from - 1].end; var it := Classify(list[from..k]);
      && start <= |sql|
      && (k < |list| ==> start <= list[k].end <= |sql|)
      && (IsStar(it) ==> start <= it.start <= it.end <= |sql| && (k < |list| ==> it.end <= list[k].end))
      && (it.item.Qualified? ==> Unquote(it.written) == it.item.key)
  {
    hide Unquote;
    if from > 0 { OrderedEnds(list, pos, sql, from - 1, from - 1); }
    if from < |list| { OrderedEnds(list, pos, sql, from, from); }
    if k < |list| { OrderedEnds(list, pos, sql, if from == 0 then 0 else from - 1, k); }
    if from < k {
      if from > 0 { OrderedEnds(list, pos, sql, from - 1, from); }
      OrderedEnds(list, pos, sql, from, k - 1);
      if k < |list| { OrderedEnds(list, pos, sql, k - 1, k); }
    }
    if list == [] { assert pos <= |sql|; }
  }

  // ---- the whole -------------------------------------------------------------------------------------

  datatype Expansion = Untouched | Rewritten(sql: string) | Rejected(fault: Fault)

  function Show(c: Column): string { (if c.qualifier.Some? then c.qualifier.value + "." else "") + c.field }

  function Join(names: seq<Entry>): string
    requires forall i | 0 <= i < |names| :: names[i].Named?
  {
    if names == [] then ""
    else Show(names[0].column) + (if |names| > 1 then ", " else "") + Join(names[1..])
  }

  lemma {:induction false} NamesAreNamed(part: Part, run: seq<Output>, q: Query)
    ensures forall i | 0 <= i < |Names(part, run, q)| :: Names(part, run, q)[i].Named?
  {
    if run != [] { NamesAreNamed(part, run[1..], q); }
  }

  /** Each star's replacement, in order; none when a filter leaves a star without columns. */
  function Replacements(parts: seq<Part>, ends: seq<int>, outputs: seq<Output>, cursor: int,
        q: Query): Option<seq<Replacement>>
    requires |ends| == |parts|
  {
    if parts == [] then Some([])
    else
      var rest := Replacements(parts[1..], ends[1..], outputs, ends[0], q);
      if !IsStar(parts[0]) then rest
      else
        var names := Names(parts[0], Slice(outputs, cursor, ends[0]), q);
        NamesAreNamed(parts[0], Slice(outputs, cursor, ends[0]), q);
        if names == [] || rest.None? then None
        else Some([Replacement(parts[0].start, parts[0].end, Join(names))] + rest.value)
  }

  /** Replacements of star spans fit the text, and outside a star's span nothing is replaced. */
  lemma {:induction false} ReplacementsFit(parts: seq<Part>, ends: seq<int>, outputs: seq<Output>, cursor: int,
        q: Query, pos: nat, n: nat)
    requires |ends| == |parts| && StarsOrdered(parts, pos, n) && Replacements(parts, ends, outputs, cursor, q).Some?
    ensures Spliceable(Replacements(parts, ends, outputs, cursor, q).value, pos, n)
  {
    hide Unquote, Names, Join;
    if parts != [] {
      ReplacementsFit(parts[1..], ends[1..], outputs, ends[0], q, if IsStar(parts[0]) then parts[0].end else pos, n);
      var rs := Replacements(parts, ends, outputs, cursor, q).value;
      if IsStar(parts[0]) { assert rs[1..] == Replacements(parts[1..], ends[1..], outputs, ends[0], q).value; }
    }
  }

  lemma {:induction false} MappedLength(items: seq<Item>, outputs: seq<Output>, total: nat, cursor: int)
    requires Map(items, outputs, total, cursor).Mapped?
    ensures |Map(items, outputs, total, cursor).ends| == |items|
  {
    hide Advance;
    if items != [] {
      MappedLength(items[1..], outputs, total, Advance(items[0], outputs, total, |items| - 1, cursor).end);
    }
  }

  /** The select list of a text, from its tokens; None when it has no top-level SELECT ... FROM. */
  function SelectList(toks: seq<Token>): Option<seq<Part>>
  {
    var sel := Find(toks, 0, "select");
    if sel == |toks| then None
    else
      var from := Find(toks, sel + 1, "from");
      if from == |toks| then None
      else
        var list := toks[sel + 1..from];
        Some(PartsFrom(list, SkipPrefix(list), SkipPrefix(list)))
  }

  lemma {:induction false} OrderedTake(toks: seq<Token>, from: nat, sql: string, k: nat)
    requires Ordered(toks, from, sql) && k <= |toks|
    ensures Ordered(toks[..k], from, sql)
  {
    if k > 0 {
      OrderedTake(toks[1..], toks[0].end, sql, k - 1);
      assert toks[..k][1..] == toks[1..][..k - 1];
    } else if toks != [] {
      OrderedEnds(toks, from, sql, 0, 0);
    }
  }

  lemma SelectListOrdered(sql: string)
    requires SelectList(Tokens(sql, 0, 0)).Some?
    ensures StarsOrdered(SelectList(Tokens(sql, 0, 0)).value, 0, |sql|)
  {
    hide Ordered, PartsFrom, StarsOrdered, Find, SkipPrefix, Tokens;
    var toks := Tokens(sql, 0, 0);
    TokensOrdered(sql, 0, 0);
    var sel := Find(toks, 0, "select");
    var from := Find(toks, sel + 1, "from");
    OrderedTake(toks, 0, sql, from);
    OrderedDrop(toks[..from], 0, sql, sel + 1);
    assert toks[..from][sel + 1..] == toks[sel + 1..from];
    var (list, pos) := (toks[sel + 1..from], toks[..from][sel].end);
    var p := SkipPrefix(list);
    PartsOrdered(list, p, p, pos, sql);
    StarsOrderedFrom(PartsFrom(list, p, p), if p == 0 then pos else list[p - 1].end, 0, |sql|);
  }

  /** Stars in a list, and whether a bare one is among them. */
  function Stars(parts: seq<Part>): nat
  {
    if parts == [] then 0 else Stars(parts[1..]) + if IsStar(parts[0]) then 1 else 0
  }

  predicate HasBare(parts: seq<Part>) { exists i :: 0 <= i < |parts| && parts[i].item.Bare? }

  /** A second SELECT outside parentheses, as in a union. */
  predicate SecondSelect(toks: seq<Token>) {
    var sel := Find(toks, 0, "select");
    sel < |toks| && Find(toks, sel + 1, "select") < |toks|
  }

  /** A bare star among several. */
  predicate BareMix(parts: seq<Part>) { Stars(parts) > 1 && HasBare(parts) }

  /** The rewrite of a statement, with every way to refuse one. */
  function Expanded(sql: string, outputs: seq<Output>, q: Query): Expansion
  {
    var toks := Tokens(sql, 0, 0);
    var list := SelectList(toks);
    if list.None? || Stars(list.value) == 0 then Untouched
    else if SecondSelect(toks) then Rejected(Union)
    else if BareMix(list.value) then Rejected(BareMixed)
    else
      match Map(Items(list.value), outputs, |list.value|, 0)
      case Failed(fault) => Rejected(fault)
      case Mapped(ends) =>
        MappedLength(Items(list.value), outputs, |list.value|, 0);
        var rs := Replacements(list.value, ends, outputs, 0, q);
        if rs.None? then Rejected(NothingLeft)
        else
          SelectListOrdered(sql);
          ReplacementsFit(list.value, ends, outputs, 0, q, 0, |sql|);
          Rewritten(Splice(sql, rs.value, 0))
  }

  method ExpandStarSql(sql: string, outputs: seq<Output>, q: Query) returns (r: Expansion)
    ensures r == Expanded(sql, outputs, q)
  {
    hide Tokens, Find, PartsFrom, Stars, Map, Replacements, Spliceable, Splice, StarsOrdered, SkipPrefix;
    var toks := Tokenize(sql);
    var list := SelectList(toks);
    if list.None? || Stars(list.value) == 0 { return Untouched; }
    if SecondSelect(toks) { return Rejected(Union); }
    if BareMix(list.value) { return Rejected(BareMixed); }
    var mapped := MapItems(Items(list.value), outputs);
    if mapped.Failed? { return Rejected(mapped.fault); }
    MappedLength(Items(list.value), outputs, |list.value|, 0);
    var rs := Replacements(list.value, mapped.ends, outputs, 0, q);
    if rs.None? { return Rejected(NothingLeft); }
    SelectListOrdered(sql);
    ReplacementsFit(list.value, mapped.ends, outputs, 0, q, 0, |sql|);
    var out := SpliceAll(sql, rs.value);
    r := Rewritten(out);
  }

  // ---- what the rewrite means --------------------------------------------------------------------------

  /** Every star keeps a column. */
  predicate AllKeep(parts: seq<Part>, ends: seq<int>, outputs: seq<Output>, cursor: int, q: Query)
    requires Partitions(ends, Items(parts), outputs, cursor)
  {
    parts == [] ||
    (ItemsRest(parts);
     (IsStar(parts[0]) ==> Names(parts[0], outputs[cursor..ends[0]], q) != []) &&
     AllKeep(parts[1..], ends[1..], outputs, ends[0], q))
  }

  /** Star by star, the replacements write out the names of the new list. */
  predicate Writes(rs: seq<Replacement>, parts: seq<Part>, ends: seq<int>, outputs: seq<Output>, cursor: int, q: Query)
    requires Partitions(ends, Items(parts), outputs, cursor)
  {
    if parts == [] then rs == []
    else
      ItemsRest(parts);
      if !IsStar(parts[0]) then Writes(rs, parts[1..], ends[1..], outputs, ends[0], q)
      else
        var names := Names(parts[0], outputs[cursor..ends[0]], q);
        NamesAreNamed(parts[0], outputs[cursor..ends[0]], q);
        && rs != [] && rs[0] == Replacement(parts[0].start, parts[0].end, Join(names))
        && Writes(rs[1..], parts[1..], ends[1..], outputs, ends[0], q)
  }

  lemma {:induction false} ReplacementsWrite(parts: seq<Part>, ends: seq<int>, outputs: seq<Output>, cursor: int,
        q: Query)
    requires Partitions(ends, Items(parts), outputs, cursor) && |ends| == |parts| && 0 <= cursor
    ensures Replacements(parts, ends, outputs, cursor, q).Some? <==> AllKeep(parts, ends, outputs, cursor, q)
    ensures var rs := Replacements(parts, ends, outputs, cursor, q);
      rs.Some? ==> Writes(rs.value, parts, ends, outputs, cursor, q)
  {
    hide Names, Join;
    if parts != [] {
      ItemsRest(parts);
      ReplacementsWrite(parts[1..], ends[1..], outputs, ends[0], q);
      assert Slice(outputs, cursor, ends[0]) == outputs[cursor..ends[0]];
      var rs := Replacements(parts, ends, outputs, cursor, q);
      if rs.Some? && IsStar(parts[0]) {
        assert rs.value[1..] == Replacements(parts[1..], ends[1..], outputs, ends[0], q).value;
      }
    }
  }

  lemma {:induction false} StarsSpelled(parts: seq<Part>, pos: nat, n: nat, i: nat)
    requires StarsOrdered(parts, pos, n) && i < |parts|
    ensures parts[i].item.Qualified? ==> Unquote(parts[i].written) == parts[i].item.key
  {
    hide Unquote;
    if i > 0 { StarsSpelled(parts[1..], if IsStar(parts[0]) then parts[0].end else pos, n, i - 1); }
  }

  lemma {:induction false} StarCounted(parts: seq<Part>, i: nat)
    requires i < |parts| && IsStar(parts[i])
    ensures Stars(parts) >= 1
  {
    if i > 0 { StarCounted(parts[1..], i - 1); }
  }

  lemma {:induction false} TwoStars(parts: seq<Part>, i: nat, j: nat)
    requires i < j < |parts| && IsStar(parts[i]) && IsStar(parts[j])
    ensures Stars(parts) >= 2
  {
    if i == 0 { StarCounted(parts[1..], j - 1); } else { TwoStars(parts[1..], i - 1, j - 1); }
  }

  /** A bare star that is let pass has only expressions beside it. */
  lemma BareIsAlone(parts: seq<Part>)
    requires !BareMix(parts)
    ensures var items := Items(parts);
      forall i | 0 <= i < |items| && items[i].Bare? :: forall j | 0 <= j < |items| && i != j :: items[j].Expression?
  {
    forall i, j | 0 <= i < |parts| && parts[i].item.Bare? && 0 <= j < |parts| && i != j
      ensures parts[j].item.Expression?
    {
      if IsStar(parts[j]) { TwoStars(parts, if i < j then i else j, if i < j then j else i); }
    }
  }

  /**
   * The rewrite, exactly. Let the statement be one that is not turned away for its
   * shape, and `ends` the true partition of its outputs. The items are mapped by that
   * partition if and only if it is recognised; then the statement is rewritten if and
   * only if every star keeps a column, and what is written in the stars' places are
   * the names of a list that makes the original columns, less those filtered out.
   */
  lemma ExpansionMeans(sql: string, outputs: seq<Output>, q: Query, parts: seq<Part>, ends: seq<int>)
    requires SelectList(Tokens(sql, 0, 0)) == Some(parts) && Stars(parts) > 0
    requires !SecondSelect(Tokens(sql, 0, 0)) && !BareMix(parts)
    requires Partitions(ends, Items(parts), outputs, 0) && |ends| == |parts|
    ensures Map(Items(parts), outputs, |parts|, 0) == Mapped(ends) <==> AllRecognised(ends, Items(parts), outputs)
    ensures AllRecognised(ends, Items(parts), outputs) ==>
      var r := Expanded(sql, outputs, q);
      && (r.Rewritten? <==> AllKeep(parts, ends, outputs, 0, q))
      && (!r.Rewritten? ==> r == Rejected(NothingLeft))
      && (r.Rewritten? ==>
           exists rs :: Spliceable(rs, 0, |sql|) && r.sql == Splice(sql, rs, 0) &&
             Writes(rs, parts, ends, outputs, 0, q))
    ensures MeansAll(NewList(parts, ends, outputs, 0, q), Filtered(Items(parts), ends, outputs, 0, q), outputs)
  {
    hide Tokens, SelectList, Stars, SecondSelect, BareMix, Map, AllRecognised, AllKeep, Writes, Replacements,
      Spliceable, Splice, NewList, Filtered, MeansAll, StarsOrdered, Unquote, Partitions;
    SelectListOrdered(sql);
    BareIsAlone(parts);
    MapRecovers(Items(parts), outputs, |parts|, 0, ends);
    ReplacementsWrite(parts, ends, outputs, 0, q);
    forall i | 0 <= i < |parts| ensures parts[i].item.Qualified? ==> Unquote(parts[i].written) == parts[i].item.key {
      StarsSpelled(parts, 0, |sql|, i);
    }
    NewListMeans(parts, ends, outputs, 0, q);
    if AllRecognised(ends, Items(parts), outputs) && Replacements(parts, ends, outputs, 0, q).Some? {
      ReplacementsFit(parts, ends, outputs, 0, q, 0, |sql|);
    }
  }

  /** Whatever is rewritten: with an output for each item, it is by some partition of the outputs. */
  lemma RewrittenByPartition(sql: string, outputs: seq<Output>, q: Query)
    requires Expanded(sql, outputs, q).Rewritten?
    ensures var list := SelectList(Tokens(sql, 0, 0));
      && list.Some? && Stars(list.value) > 0
      && (|list.value| <= |outputs| ==>
            var m := Map(Items(list.value), outputs, |list.value|, 0);
            m.Mapped? && Partitions(m.ends, Items(list.value), outputs, 0))
  {
    hide Tokens, SelectList, Stars, SecondSelect, BareMix, Map, Replacements, Spliceable, Splice, StarsOrdered,
      Partitions;
    var parts := SelectList(Tokens(sql, 0, 0)).value;
    if |parts| <= |outputs| { MapPartitions(Items(parts), outputs, |parts|, 0); }
  }
}
