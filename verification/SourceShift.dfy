/**
 Inserting text into the lines of a program, and the table of shifts that moves witness columns along
 with the text and back again.
 */
module SourceShift {
  import opened Common

  /** Text to be inserted in front of a column; lines and columns count from 1. */
  datatype Request = Request(line: int, col: int, text: string)

  /** One entry of a row of the shift table: so much was inserted at this column. */
  datatype Entry = Entry(col: int, length: int)

  // ---------------------------------------------------------------------------------------------
  // Stable sorting, as the list type provides it.

  function Insert<T>(x: T, ys: seq<T>, leq: (T, T) -> bool): seq<T>
    decreases |ys|
  {
    if ys == [] || leq(x, ys[0]) then [x] + ys else [ys[0]] + Insert(x, ys[1..], leq)
  }

  function StableSort<T>(xs: seq<T>, leq: (T, T) -> bool): seq<T>
    decreases |xs|
  {
    if xs == [] then [] else Insert(xs[0], StableSort(xs[1..], leq), leq)
  }

  ghost predicate Sorted<T>(xs: seq<T>, leq: (T, T) -> bool) {
    forall i, j | 0 <= i < j < |xs| :: leq(xs[i], xs[j])
  }

  ghost predicate TotalPreorder<T(!new)>(leq: (T, T) -> bool) {
    && (forall x, y :: leq(x, y) || leq(y, x))
    && (forall x, y, z :: leq(x, y) && leq(y, z) ==> leq(x, z))
  }

  /** First by one order, and among equals by another. */
  function Lexicographic<T>(leq: (T, T) -> bool, tie: (T, T) -> bool): (T, T) -> bool {
    (x: T, y: T) => leq(x, y) && (leq(y, x) ==> tie(x, y))
  }

  lemma {:induction false} InsertKeeps<T>(x: T, ys: seq<T>, leq: (T, T) -> bool)
    ensures multiset(Insert(x, ys, leq)) == multiset{x} + multiset(ys)
    decreases |ys|
  {
    if ys != [] && !leq(x, ys[0]) {
      InsertKeeps(x, ys[1..], leq);
      assert ys == [ys[0]] + ys[1..];
    }
  }

  lemma {:induction false} SortKeeps<T>(xs: seq<T>, leq: (T, T) -> bool)
    ensures multiset(StableSort(xs, leq)) == multiset(xs)
    decreases |xs|
  {
    if xs != [] {
      SortKeeps(xs[1..], leq);
      InsertKeeps(xs[0], StableSort(xs[1..], leq), leq);
      assert xs == [xs[0]] + xs[1..];
    }
  }

  lemma {:induction false} InsertSorted<T(!new)>(x: T, ys: seq<T>, leq: (T, T) -> bool, tie: (T, T) -> bool)
    requires TotalPreorder(leq) && Sorted(ys, Lexicographic(leq, tie)) && forall y | y in ys :: tie(x, y)
    ensures Sorted(Insert(x, ys, leq), Lexicographic(leq, tie))
    decreases |ys|
  {
    var zs := Insert(x, ys, leq);
    if ys == [] || leq(x, ys[0]) {
      forall i, j | 0 <= i < j < |zs| ensures Lexicographic(leq, tie)(zs[i], zs[j]) {
        if i == 0 {
          assert zs[j] == ys[j - 1] && ys[j - 1] in ys;
          assert j > 1 ==> Lexicographic(leq, tie)(ys[0], ys[j - 1]);
        }
      }
    } else {
      InsertSorted(x, ys[1..], leq, tie);
      InsertKeeps(x, ys[1..], leq);
      var rest := Insert(x, ys[1..], leq);
      forall j | 0 <= j < |rest| ensures Lexicographic(leq, tie)(ys[0], rest[j]) {
        assert rest[j] in multiset(rest);
        if rest[j] != x {
          assert rest[j] in ys[1..];
          var k :| 0 <= k < |ys[1..]| && ys[1..][k] == rest[j];
          assert ys[k + 1] == rest[j];
        }
      }
    }
  }

  /** Sorting a list that is ordered one way orders it another way and keeps the first order among equals. */
  lemma {:induction false} SortRefines<T(!new)>(xs: seq<T>, leq: (T, T) -> bool, tie: (T, T) -> bool)
    requires TotalPreorder(leq) && Sorted(xs, tie)
    ensures Sorted(StableSort(xs, leq), Lexicographic(leq, tie))
    decreases |xs|
  {
    if xs != [] {
      var rest := StableSort(xs[1..], leq);
      SortRefines(xs[1..], leq, tie);
      SortKeeps(xs[1..], leq);
      forall y | y in rest ensures tie(xs[0], y) {
        assert y in multiset(rest);
        assert y in xs[1..];
        var k :| 0 <= k < |xs[1..]| && xs[1..][k] == y;
        assert xs[k + 1] == y;
      }
      InsertSorted(xs[0], rest, leq, tie);
    }
  }

  lemma {:induction false} SortedUnique<T(!new)>(xs: seq<T>, ys: seq<T>, leq: (T, T) -> bool)
    requires Sorted(xs, leq) && Sorted(ys, leq) && multiset(xs) == multiset(ys)
    requires forall x, y :: leq(x, y) && leq(y, x) ==> x == y
    ensures xs == ys
    decreases |xs|
  {
    assert |xs| == |multiset(xs)| == |multiset(ys)| == |ys|;
    if xs != [] {
      SameFirst(xs, ys, leq);
      DropFirst(xs);
      DropFirst(ys);
      SortedUnique(xs[1..], ys[1..], leq);
    }
  }

  lemma DropFirst<T>(xs: seq<T>)
    requires xs != []
    ensures multiset(xs[1..]) == multiset(xs) - multiset{xs[0]} && xs == [xs[0]] + xs[1..]
  {
    assert xs == [xs[0]] + xs[1..];
  }

  lemma SameFirst<T(!new)>(xs: seq<T>, ys: seq<T>, leq: (T, T) -> bool)
    requires Sorted(xs, leq) && Sorted(ys, leq) && multiset(xs) == multiset(ys) && xs != [] && ys != []
    requires forall x, y :: leq(x, y) && leq(y, x) ==> x == y
    ensures xs[0] == ys[0]
  {
    assert xs[0] in multiset(ys) && ys[0] in multiset(xs);
    var i :| 0 <= i < |ys| && ys[i] == xs[0];
    var j :| 0 <= j < |xs| && xs[j] == ys[0];
  }

  // ---------------------------------------------------------------------------------------------
  // The order of the requests: later lines first, later columns first, then by text.

  predicate TextLeq(a: string, b: string) {
    a == [] || (b != [] && (a[0] < b[0] || (a[0] == b[0] && TextLeq(a[1..], b[1..]))))
  }

  lemma {:induction false} TextTotal(a: string, b: string)
    ensures TextLeq(a, b) || TextLeq(b, a)
    decreases |a|
  {
    if a != [] && b != [] && a[0] == b[0] {
      TextTotal(a[1..], b[1..]);
    }
  }

  lemma {:induction false} TextAntisymmetric(a: string, b: string)
    requires TextLeq(a, b) && TextLeq(b, a)
    ensures a == b
    decreases |a|
  {
    if a != [] {
      TextAntisymmetric(a[1..], b[1..]);
      assert a == [a[0]] + a[1..] && b == [b[0]] + b[1..];
    }
  }

  lemma {:induction false} TextTransitive(a: string, b: string, c: string)
    requires TextLeq(a, b) && TextLeq(b, c)
    ensures TextLeq(a, c)
    decreases |a|
  {
    if a != [] && a[0] == b[0] == c[0] {
      TextTransitive(a[1..], b[1..], c[1..]);
    }
  }

  function ByText(): (Request, Request) -> bool { (a: Request, b: Request) => TextLeq(a.text, b.text) }
  function ByCol(): (Request, Request) -> bool { (a: Request, b: Request) => a.col >= b.col }
  function ByLine(): (Request, Request) -> bool { (a: Request, b: Request) => a.line >= b.line }
  function Anyhow(): (Request, Request) -> bool { (a: Request, b: Request) => true }

  predicate InOrder(a: Request, b: Request) {
    a.line > b.line || (a.line == b.line && (a.col > b.col || (a.col == b.col && TextLeq(a.text, b.text))))
  }

  function SortedRequests(rs: seq<Request>): seq<Request> {
    StableSort(StableSort(StableSort(rs, ByText()), ByCol()), ByLine())
  }

  lemma OrdersArePreorders()
    ensures TotalPreorder(ByText()) && TotalPreorder(ByCol()) && TotalPreorder(ByLine())
  {
    forall a: Request, b: Request ensures ByText()(a, b) || ByText()(b, a) {
      TextTotal(a.text, b.text);
    }
    forall a: Request, b: Request, c: Request | ByText()(a, b) && ByText()(b, c) ensures ByText()(a, c) {
      TextTransitive(a.text, b.text, c.text);
    }
  }

  /** The three sorts give the requests in order, whatever order they came in. */
  lemma SortedInOrder(rs: seq<Request>)
    ensures multiset(SortedRequests(rs)) == multiset(rs)
    ensures Sorted(SortedRequests(rs), InOrder)
  {
    OrdersArePreorders();
    var a := StableSort(rs, ByText());
    var b := StableSort(a, ByCol());
    SortKeeps(rs, ByText());
    SortKeeps(a, ByCol());
    SortKeeps(b, ByLine());
    SortRefines(rs, ByText(), Anyhow());
    SortRefines(a, ByCol(), Lexicographic(ByText(), Anyhow()));
    SortRefines(b, ByLine(), Lexicographic(ByCol(), Lexicographic(ByText(), Anyhow())));
  }

  /** Where two texts first differ, the smaller character comes first; a text comes after its beginnings. */
  ghost predicate FirstDifference(a: string, b: string, k: nat) {
    k < |a| && k < |b| && a[..k] == b[..k] && a[k] < b[k]
  }

  lemma {:induction false} TextOrder(a: string, b: string)
    ensures TextLeq(a, b) <==> a <= b || exists k: nat :: FirstDifference(a, b, k)
    decreases |a|
  {
    if a != [] && b != [] {
      var a', b' := a[1..], b[1..];
      if a[0] < b[0] {
        assert FirstDifference(a, b, 0);
      } else if a[0] == b[0] {
        TextOrder(a', b');
        assert a == [a[0]] + a' && b == [b[0]] + b';
        if k: nat :| FirstDifference(a', b', k) {
          assert a[..k + 1] == [a[0]] + a'[..k] && b[..k + 1] == [b[0]] + b'[..k];
          assert FirstDifference(a, b, k + 1);
        }
        if k: nat :| FirstDifference(a, b, k) {
          assert k > 0 && a'[..k - 1] == a[..k][1..] && b'[..k - 1] == b[..k][1..];
          assert FirstDifference(a', b', k - 1);
        }
      }
    }
  }

  /** Of two requests, the one carried out first is further down, further back, or smaller as a text. */
  lemma CarriedOutFirst(rs: seq<Request>, i: nat, j: nat)
    requires i < j < |SortedRequests(rs)|
    ensures var a, b := SortedRequests(rs)[i], SortedRequests(rs)[j];
            || a.line > b.line
            || (a.line == b.line && a.col > b.col)
            || (a.line == b.line && a.col == b.col
                && (a.text <= b.text || exists k: nat :: FirstDifference(a.text, b.text, k)))
  {
    SortedInOrder(rs);
    assert InOrder(SortedRequests(rs)[i], SortedRequests(rs)[j]);
    TextOrder(SortedRequests(rs)[i].text, SortedRequests(rs)[j].text);
  }

  /** The result depends only on which requests there are, not on the order in which they were made. */
  lemma OrderOfRequestsIrrelevant(rs: seq<Request>, rs': seq<Request>)
    requires multiset(rs) == multiset(rs')
    ensures SortedRequests(rs) == SortedRequests(rs')
  {
    SortedInOrder(rs);
    SortedInOrder(rs');
    forall x, y | InOrder(x, y) && InOrder(y, x) ensures x == y {
      TextAntisymmetric(x.text, y.text);
    }
    SortedUnique(SortedRequests(rs), SortedRequests(rs'), InOrder);
  }

  // ---------------------------------------------------------------------------------------------
  // Lines.

  /** A position clipped to the length of the line, as slicing does. */
  function Clip(k: int, n: nat): (r: nat)
    ensures r <= n
  {
    if k < 0 then 0 else if k <= n then k else n
  }

  function InsertAt<T>(s: seq<T>, col: int, text: seq<T>): seq<T> {
    var k := Clip(col - 1, |s|);
    s[..k] + text + s[k..]
  }

  /** One line after the requests for it, in the given order. */
  function EditLine(s: string, line: int, rs: seq<Request>): string
    decreases |rs|
  {
    if rs == [] then s
    else
      var before := EditLine(s, line, rs[..|rs| - 1]);
      var r := rs[|rs| - 1];
      if r.line == line then InsertAt(before, r.col, r.text) else before
  }

  /** How much the requests insert on a line up to a column. */
  function Inserted(rs: seq<Request>, line: int, col: int): nat
    decreases |rs|
  {
    if rs == [] then 0
    else
      var r := rs[|rs| - 1];
      Inserted(rs[..|rs| - 1], line, col) + if r.line == line && r.col <= col then |r.text| else 0
  }

  function EditAll(lines: seq<string>, rs: seq<Request>): seq<string> {
    seq(|lines|, n requires 0 <= n < |lines| => EditLine(lines[n], n + 1, rs))
  }

  lemma EditOneMore(lines: seq<string>, rs: seq<Request>, r: Request)
    requires 1 <= r.line <= |lines|
    ensures var e := EditAll(lines, rs);
            EditAll(lines, rs + [r]) == e[r.line - 1 := InsertAt(e[r.line - 1], r.col, r.text)]
  {
    assert (rs + [r])[..|rs|] == rs;
  }

  ghost predicate ColsAtLeast(rs: seq<Request>, line: int, col: int) {
    forall r | r in rs && r.line == line :: r.col >= col
  }

  ghost predicate PositiveCols(rs: seq<Request>) {
    forall r | r in rs :: r.col >= 1
  }

  lemma {:induction false} NothingInsertedBefore(rs: seq<Request>, line: int, col: int, c: int)
    requires ColsAtLeast(rs, line, col) && c < col
    ensures Inserted(rs, line, c) == 0
    decreases |rs|
  {
    if rs != [] {
      assert rs[|rs| - 1] in rs;
      NothingInsertedBefore(rs[..|rs| - 1], line, col, c);
    }
  }

  /** The last request for a line is the one furthest to the front. */
  lemma FrontInOrder(rs: seq<Request>, line: int)
    requires Sorted(rs, InOrder) && PositiveCols(rs) && rs != []
    ensures var front, r := rs[..|rs| - 1], rs[|rs| - 1];
            && Sorted(front, InOrder) && PositiveCols(front) && r.col >= 1
            && (r.line == line ==> ColsAtLeast(front, line, r.col))
  {
    var front, r := rs[..|rs| - 1], rs[|rs| - 1];
    assert r in rs;
    forall q | q in front && q.line == line && r.line == line ensures q.col >= r.col {
      var i :| 0 <= i < |front| && front[i] == q;
      assert InOrder(rs[i], rs[|rs| - 1]);
    }
  }

  /**
   Done from the back of a line to its front, the insertions move every original character by what is
   inserted up to its column.
   */
  lemma {:induction false} CharactersMove(s: string, line: int, rs: seq<Request>, c: int)
    requires Sorted(rs, InOrder) && PositiveCols(rs) && 1 <= c <= |s|
    ensures var e := EditLine(s, line, rs);
            var p := c + Inserted(rs, line, c);
            p <= |e| && e[p - 1] == s[c - 1]
    decreases |rs|
  {
    if rs != [] {
      var front, r := rs[..|rs| - 1], rs[|rs| - 1];
      FrontInOrder(rs, line);
      CharactersMove(s, line, front, c);
      if r.line == line {
        if c < r.col {
          NothingInsertedBefore(front, line, r.col, c);
        }
        InsertionMoves(EditLine(s, line, front), r.col, r.text, c + Inserted(front, line, c));
      }
    }
  }

  lemma InsertionMoves(s: string, col: int, text: string, p: int)
    requires col >= 1 && 1 <= p <= |s|
    ensures var e := InsertAt(s, col, text);
            |e| == |s| + |text| && e[(if p < col then p else p + |text|) - 1] == s[p - 1]
  {
  }

  lemma {:induction false} InsertedAddRequest(rs: seq<Request>, r: Request, line: int, col: int)
    ensures Inserted(rs + [r], line, col) == Inserted(rs, line, col) +
            if r.line == line && r.col <= col then |r.text| else 0
  {
    assert (rs + [r])[..|rs|] == rs;
  }

  lemma {:induction false} NeverShorter(s: string, line: int, rs: seq<Request>)
    ensures |s| <= |EditLine(s, line, rs)|
    decreases |rs|
  {
    if rs != [] {
      NeverShorter(s, line, rs[..|rs| - 1]);
    }
  }

  /** Where the text of a request is: at its column, moved by what is inserted in front of it later on. */
  function PlaceOf(rs: seq<Request>, k: nat): int
    requires k < |rs|
  {
    rs[k].col - 1 + Inserted(rs[k + 1..], rs[k].line, rs[k].col)
  }

  lemma PlaceMoves(front: seq<Request>, r: Request, k: nat)
    requires k < |front|
    ensures PlaceOf(front + [r], k) ==
            PlaceOf(front, k) + if r.line == front[k].line && r.col <= front[k].col then |r.text| else 0
  {
    assert (front + [r])[k + 1..] == front[k + 1..] + [r];
    InsertedAddRequest(front[k + 1..], r, front[k].line, front[k].col);
  }

  ghost predicate StandsAt(e: string, p: int, text: string) {
    0 <= p <= p + |text| <= |e| && e[p..p + |text|] == text
  }

  /** One more insertion on the line, further to the front, takes the text along. */
  lemma TextMoves(before: string, line: int, front: seq<Request>, r: Request, k: nat)
    requires k < |front| && front[k].line == line && (r.line == line ==> 1 <= r.col <= front[k].col)
    requires StandsAt(before, PlaceOf(front, k), front[k].text)
    ensures StandsAt(if r.line == line then InsertAt(before, r.col, r.text) else before, PlaceOf(front + [r], k),
                     front[k].text)
  {
    PlaceMoves(front, r, k);
    if r.line == line {
      SliceMoves(before, r.col, r.text, PlaceOf(front, k), |front[k].text|);
    }
  }

  /** Every inserted text stands in the line unbroken. */
  lemma {:induction false} TextStands(s: string, line: int, rs: seq<Request>, k: nat)
    requires Sorted(rs, InOrder) && PositiveCols(rs) && k < |rs| && rs[k].line == line && rs[k].col <= |s| + 1
    ensures StandsAt(EditLine(s, line, rs), PlaceOf(rs, k), rs[k].text)
    decreases |rs|
  {
    var n := |rs| - 1;
    var front, r := rs[..n], rs[n];
    FrontInOrder(rs, line);
    if k == n {
      NeverShorter(s, line, front);
      assert rs[k + 1..] == [];
      TextInserted(EditLine(s, line, front), r.col, r.text);
    } else {
      TextStands(s, line, front, k);
      assert rs == front + [r] && front[k] in front;
      TextMoves(EditLine(s, line, front), line, front, r, k);
    }
  }

  lemma TextInserted(s: string, col: int, text: string)
    requires 1 <= col <= |s| + 1
    ensures StandsAt(InsertAt(s, col, text), col - 1, text)
  {
  }

  lemma SliceMoves(s: string, col: int, text: string, p: nat, length: nat)
    requires 1 <= col <= p + 1 && p + length <= |s|
    ensures var e := InsertAt(s, col, text);
            p + |text| + length <= |e| && e[p + |text|..p + |text| + length] == s[p..p + length]
  {
  }

  lemma {:induction false} LengthGrows(s: string, line: int, rs: seq<Request>, last: int)
    requires forall r | r in rs && r.line == line :: r.col <= last
    ensures |EditLine(s, line, rs)| == |s| + Inserted(rs, line, last)
    decreases |rs|
  {
    if rs != [] {
      assert rs[|rs| - 1] in rs;
      LengthGrows(s, line, rs[..|rs| - 1], last);
    }
  }

  // ---------------------------------------------------------------------------------------------
  // Which characters are inserted ones: the same insertions on marked characters.

  datatype Marked = Marked(c: char, original: bool)

  function Mark(s: string, original: bool): seq<Marked> {
    seq(|s|, k requires 0 <= k < |s| => Marked(s[k], original))
  }

  function Unmark(m: seq<Marked>): string {
    seq(|m|, k requires 0 <= k < |m| => m[k].c)
  }

  /** Deletes the inserted characters. */
  function Originals(m: seq<Marked>): string
    decreases |m|
  {
    if m == [] then [] else (if m[0].original then [m[0].c] else []) + Originals(m[1..])
  }

  function EditMarked(m: seq<Marked>, line: int, rs: seq<Request>): seq<Marked>
    decreases |rs|
  {
    if rs == [] then m
    else
      var before := EditMarked(m, line, rs[..|rs| - 1]);
      var r := rs[|rs| - 1];
      if r.line == line then InsertAt(before, r.col, Mark(r.text, false)) else before
  }

  lemma {:induction false} OriginalsAppend(a: seq<Marked>, b: seq<Marked>)
    ensures Originals(a + b) == Originals(a) + Originals(b)
    decreases |a|
  {
    if a == [] {
      assert a + b == b;
    } else {
      assert (a + b)[0] == a[0] && (a + b)[1..] == a[1..] + b;
      OriginalsAppend(a[1..], b);
    }
  }

  lemma {:induction false} MarkedOriginals(s: string, original: bool)
    ensures Originals(Mark(s, original)) == if original then s else []
    decreases |s|
  {
    if s != [] {
      assert Mark(s, original)[1..] == Mark(s[1..], original);
      MarkedOriginals(s[1..], original);
      assert s == [s[0]] + s[1..];
    }
  }

  /** Deleting what was inserted restores the line. */
  lemma {:induction false} DeletingInsertedRestores(s: string, line: int, rs: seq<Request>)
    ensures var m := EditMarked(Mark(s, true), line, rs);
            Unmark(m) == EditLine(s, line, rs) && Originals(m) == s
    decreases |rs|
  {
    if rs == [] {
      MarkedOriginals(s, true);
      assert Unmark(Mark(s, true)) == s;
    } else {
      DeletingInsertedRestores(s, line, rs[..|rs| - 1]);
      var m, r := EditMarked(Mark(s, true), line, rs[..|rs| - 1]), rs[|rs| - 1];
      MarkedInsertion(m, r.col, r.text);
    }
  }

  lemma MarkedInsertion(m: seq<Marked>, col: int, text: string)
    ensures Originals(InsertAt(m, col, Mark(text, false))) == Originals(m)
    ensures Unmark(InsertAt(m, col, Mark(text, false))) == InsertAt(Unmark(m), col, text)
  {
    var k, t := Clip(col - 1, |m|), Mark(text, false);
    MarkedOriginals(text, false);
    InsertionErased(m[..k], t, m[k..]);
    assert m == m[..k] + m[k..];
    UnmarkInsertion(m, k, text);
  }

  lemma InsertionErased(a: seq<Marked>, t: seq<Marked>, b: seq<Marked>)
    requires Originals(t) == []
    ensures Originals(a + t + b) == Originals(a + b)
  {
    OriginalsAppend(a, b);
    OriginalsAppend(a + t, b);
    OriginalsAppend(a, t);
  }

  lemma UnmarkInsertion(m: seq<Marked>, k: nat, text: string)
    requires k <= |m|
    ensures Unmark(m[..k] + Mark(text, false) + m[k..]) == Unmark(m)[..k] + text + Unmark(m)[k..]
  {
  }

  // ---------------------------------------------------------------------------------------------
  // The shift table.

  /** A row of the table; a dictionary keeps its entries in the order they were made. */
  type Row = seq<Entry>

  type Table = map<int, Row>

  ghost predicate OneEntryPerCol(row: Row) {
    forall i, j | 0 <= i < j < |row| :: row[i].col != row[j].col
  }

  ghost predicate PositiveLengths(row: Row) {
    forall k | 0 <= k < |row| :: row[k].length > 0
  }

  /** What a row adds to a column. */
  function RowSum(row: Row, col: int): int
    decreases |row|
  {
    if row == [] then 0
    else RowSum(row[..|row| - 1], col) + if row[|row| - 1].col <= col then row[|row| - 1].length else 0
  }

  /** The column in the edited text of a column of the original. */
  function Forward(table: Table, line: int, col: int): int {
    col + if line in table then RowSum(table[line], col) else 0
  }

  ghost predicate Requested(rs: seq<Request>, line: int, col: int) {
    exists r :: r in rs && r.line == line && r.col == col
  }

  /** The table says of every line what the requests insert there. */
  ghost predicate TableRight(table: Table, rs: seq<Request>) {
    && (forall line | line in table :: OneEntryPerCol(table[line]))
    && (forall line, col :: Forward(table, line, col) == col + Inserted(rs, line, col))
    && (forall line, k | line in table && 0 <= k < |table[line]| :: Requested(rs, line, table[line][k].col))
    && (forall line, k | line in table && 0 <= k < |table[line]| ::
        LengthAt(rs, line, table[line][k].col) == table[line][k].length)
  }

  /** How much the requests insert at one place. */
  function LengthAt(rs: seq<Request>, line: int, col: int): nat
    decreases |rs|
  {
    if rs == [] then 0
    else
      var r := rs[|rs| - 1];
      LengthAt(rs[..|rs| - 1], line, col) + if r.line == line && r.col == col then |r.text| else 0
  }

  lemma {:induction false} RowSumUpdated(row: Row, k: nat, length: int, col: int)
    requires k < |row|
    ensures RowSum(row[k := row[k].(length := row[k].length + length)], col) == RowSum(row, col) +
            if row[k].col <= col then length else 0
    decreases |row|
  {
    var row' := row[k := row[k].(length := row[k].length + length)];
    var n := |row| - 1;
    if k == n {
      assert row'[..n] == row[..n];
    } else {
      assert row'[..n] == row[..n][k := row[..n][k].(length := row[..n][k].length + length)];
      RowSumUpdated(row[..n], k, length, col);
    }
  }

  /** A row after one more insertion: the entry at index `k` grows, or a new one is added. */
  function RowWith(row: Row, k: nat, col: int, length: int): Row
    requires k <= |row|
  {
    if k < |row| then row[k := row[k].(length := row[k].length + length)] else row + [Entry(col, length)]
  }

  ghost predicate IsPlace(row: Row, k: nat, col: int) {
    k <= |row| && if k < |row| then row[k].col == col else forall j | 0 <= j < |row| :: row[j].col != col
  }

  lemma RowSumWith(row: Row, k: nat, at: int, length: int, col: int)
    requires IsPlace(row, k, at)
    ensures RowSum(RowWith(row, k, at, length), col) == RowSum(row, col) + if at <= col then length else 0
  {
    if k < |row| {
      RowSumUpdated(row, k, length, col);
    } else {
      assert RowWith(row, k, at, length)[..|row|] == row;
    }
  }

  function RowOf(table: Table, line: int): Row {
    if line in table then table[line] else []
  }

  lemma ForwardGrows(table: Table, rs: seq<Request>, r: Request, k: nat, line: int, col: int)
    requires TableRight(table, rs) && IsPlace(RowOf(table, r.line), k, r.col)
    ensures Forward(table[r.line := RowWith(RowOf(table, r.line), k, r.col, |r.text|)], line, col)
            == col + Inserted(rs + [r], line, col)
  {
    assert (rs + [r])[..|rs|] == rs;
    assert Forward(table, line, col) == col + Inserted(rs, line, col);
    RowSumWith(RowOf(table, r.line), k, r.col, |r.text|, col);
  }

  lemma RequestedGrows(table: Table, rs: seq<Request>, r: Request, k: nat, line: int, j: nat)
    requires TableRight(table, rs) && IsPlace(RowOf(table, r.line), k, r.col)
    requires var table' := table[r.line := RowWith(RowOf(table, r.line), k, r.col, |r.text|)];
             line in table' && j < |table'[line]|
    ensures var table' := table[r.line := RowWith(RowOf(table, r.line), k, r.col, |r.text|)];
            Requested(rs + [r], line, table'[line][j].col)
  {
    assert (rs + [r])[|rs|] == r && r in rs + [r];
    if line in table && j < |table[line]| {
      assert Requested(rs, line, table[line][j].col);
      var q :| q in rs && q.line == line && q.col == table[line][j].col;
      assert q in rs + [r];
    }
  }

  /** One more request in the table. */
  lemma TableGrows(table: Table, rs: seq<Request>, r: Request, k: nat)
    requires TableRight(table, rs) && IsPlace(RowOf(table, r.line), k, r.col)
    requires k == |RowOf(table, r.line)| ==> LengthAt(rs, r.line, r.col) == 0
    ensures TableRight(table[r.line := RowWith(RowOf(table, r.line), k, r.col, |r.text|)], rs + [r])
  {
    var row := RowOf(table, r.line);
    var table', rs' := table[r.line := RowWith(row, k, r.col, |r.text|)], rs + [r];
    assert rs'[..|rs|] == rs;
    forall line, col ensures Forward(table', line, col) == col + Inserted(rs', line, col) {
      ForwardGrows(table, rs, r, k, line, col);
    }
    forall line, j | line in table' && 0 <= j < |table'[line]| ensures Requested(rs', line, table'[line][j].col) {
      RequestedGrows(table, rs, r, k, line, j);
    }
    forall line, j | line in table' && 0 <= j < |table'[line]|
      ensures LengthAt(rs', line, table'[line][j].col) == table'[line][j].length {
      if line in table && j < |table[line]| {
        assert LengthAt(rs, line, table[line][j].col) == table[line][j].length;
      }
    }
  }

  /** Where nothing is recorded, nothing was inserted. */
  lemma {:induction false} UnrecordedIsEmpty(table: Table, rs: seq<Request>, line: int, col: int)
    requires TableRight(table, rs)
             && (line in table ==> forall j | 0 <= j < |table[line]| :: table[line][j].col != col)
    ensures LengthAt(rs, line, col) == 0
  {
    assert Forward(table, line, col) == col + Inserted(rs, line, col);
    assert Forward(table, line, col - 1) == col - 1 + Inserted(rs, line, col - 1);
    if line in table {
      NoEntryNoStep(table[line], col);
    }
    LengthIsStep(rs, line, col);
  }

  lemma {:induction false} NoEntryNoStep(row: Row, col: int)
    requires forall j | 0 <= j < |row| :: row[j].col != col
    ensures RowSum(row, col) == RowSum(row, col - 1)
    decreases |row|
  {
    if row != [] {
      NoEntryNoStep(row[..|row| - 1], col);
    }
  }

  lemma {:induction false} LengthIsStep(rs: seq<Request>, line: int, col: int)
    ensures LengthAt(rs, line, col) == Inserted(rs, line, col) - Inserted(rs, line, col - 1)
    decreases |rs|
  {
    if rs != [] {
      LengthIsStep(rs[..|rs| - 1], line, col);
    }
  }

  // ---------------------------------------------------------------------------------------------
  // The transformer.

  /** A waypoint of the witness; only its location matters here. */
  datatype Kind = Assumption | Branching | Other
  datatype Waypoint = Waypoint(kind: Kind, line: int, column: int)

  function ShiftedWaypoint(table: Table, addLines: int, w: Waypoint): Waypoint {
    if w.kind != Other then w
    else w.(line := w.line + addLines, column := Forward(table, w.line, w.column))
  }

  lemma TakeOneMore(rs: seq<Request>, k: nat)
    requires k < |rs|
    ensures rs[..k + 1] == rs[..k] + [rs[k]]
  {
  }

  lemma LinesStillInRange(rs: seq<Request>, n: nat)
    requires forall k | 0 <= k < |rs| :: 1 <= rs[k].line <= n
    ensures forall k | 0 <= k < |SortedRequests(rs)| :: 1 <= SortedRequests(rs)[k].line <= n
  {
    var sorted := SortedRequests(rs);
    SortedInOrder(rs);
    forall k | 0 <= k < |sorted| ensures 1 <= sorted[k].line <= n {
      assert sorted[k] in multiset(sorted) && sorted[k] in multiset(rs);
    }
  }

  class Transformer {
    var lines: seq<string>
    var insert: seq<Request>
    var shift: Table

    constructor (lines: seq<string>, insert: seq<Request>)
      ensures this.lines == lines && this.insert == insert && shift == map[]
    {
      this.lines := lines;
      this.insert := insert;
      shift := map[];
    }

    method AddShift(r: Request, ghost rs: seq<Request>)
      requires TableRight(shift, rs)
      modifies `shift
      ensures TableRight(shift, rs + [r])
    {
      var row := RowOf(shift, r.line);
      var k := 0;
      while k < |row| && row[k].col != r.col
        invariant 0 <= k <= |row| && forall j | 0 <= j < k :: row[j].col != r.col
      {
        k := k + 1;
      }
      if k == |row| {
        UnrecordedIsEmpty(shift, rs, r.line, r.col);
      }
      TableGrows(shift, rs, r, k);
      ghost var grown := shift[r.line := RowWith(row, k, r.col, |r.text|)];
      if k < |row| {
        shift := shift[r.line := row[k := row[k].(length := row[k].length + |r.text|)]];
      } else {
        shift := shift[r.line := row + [Entry(r.col, |r.text|)]];
      }
      assert shift == grown;
    }

    method InsertOne(r: Request, ghost original: seq<string>, ghost rs: seq<Request>)
      requires lines == EditAll(original, rs) && TableRight(shift, rs) && 1 <= r.line <= |original|
      modifies `lines, `shift
      ensures lines == EditAll(original, rs + [r]) && TableRight(shift, rs + [r])
    {
      EditOneMore(original, rs, r);
      lines := lines[r.line - 1 := InsertAt(lines[r.line - 1], r.col, r.text)];
      AddShift(r, rs);
    }

    /** Sorts the requests and carries them out, recording every insertion. */
    method InsertCalls()
      requires shift == map[] && forall k | 0 <= k < |insert| :: 1 <= insert[k].line <= |lines| && insert[k].col >= 1
      modifies this
      ensures insert == SortedRequests(old(insert))
      ensures lines == EditAll(old(lines), insert)
      ensures TableRight(shift, insert)
    {
      ghost var original := lines;
      insert := StableSort(insert, ByText());
      insert := StableSort(insert, ByCol());
      insert := StableSort(insert, ByLine());
      LinesStillInRange(old(insert), |lines|);
      ghost var sorted := SortedRequests(old(insert));
      assert forall k | 0 <= k < |sorted| :: 1 <= sorted[k].line <= |original|;
      assert EditAll(lines, []) == lines;
      for k := 0 to |insert|
        invariant insert == sorted && lines == EditAll(original, sorted[..k]) && TableRight(shift, sorted[..k])
      {
        InsertOne(insert[k], original, sorted[..k]);
        TakeOneMore(sorted, k);
      }
      assert sorted[..|sorted|] == sorted;
    }

    /** Moves the locations of a witness segment by segment. */
    method ShiftWitness(content: seq<seq<Waypoint>>, addLines: int) returns (moved: seq<seq<Waypoint>>)
      ensures |moved| == |content|
      ensures forall i | 0 <= i < |content| :: |moved[i]| == |content[i]|
      ensures forall i, j | 0 <= i < |content| && 0 <= j < |content[i]| ::
              moved[i][j] == ShiftedWaypoint(shift, addLines, content[i][j])
      ensures forall i, j | 0 <= i < |content| && 0 <= j < |content[i]| ::
              var before, after := content[i][j], moved[i][j];
              if before.kind == Assumption || before.kind == Branching then after == before
              else && after.line == before.line + addLines
                   && after.column == Forward(shift, before.line, before.column)
    {
      moved := content;
      for i := 0 to |content|
        invariant |moved| == |content|
        invariant forall p | 0 <= p < |content| :: |moved[p]| == |content[p]|
        invariant forall p, j | 0 <= p < i && 0 <= j < |content[p]| ::
                  moved[p][j] == ShiftedWaypoint(shift, addLines, content[p][j])
        invariant forall p | i <= p < |content| :: moved[p] == content[p]
      {
        for j := 0 to |content[i]|
          invariant |moved| == |content|
          invariant forall p | 0 <= p < |content| :: |moved[p]| == |content[p]|
          invariant forall p, q | 0 <= p < i && 0 <= q < |content[p]| ::
                    moved[p][q] == ShiftedWaypoint(shift, addLines, content[p][q])
          invariant forall q | 0 <= q < j :: moved[i][q] == ShiftedWaypoint(shift, addLines, content[i][q])
          invariant forall q | j <= q < |content[i]| :: moved[i][q] == content[i][q]
          invariant forall p | i < p < |content| :: moved[p] == content[p]
        {
          var w := moved[i][j];
          if w.kind == Other {
            var add := 0;
            if w.line in shift {
              add := SumUpTo(shift[w.line], w.column);
            }
            moved := moved[i := moved[i][j := w.(line := w.line + addLines, column := w.column + add)]];
          }
        }
      }
    }
  }

  method SumUpTo(row: Row, column: int) returns (add: int)
    ensures add == RowSum(row, column)
  {
    add := 0;
    for k := 0 to |row|
      invariant add == RowSum(row[..k], column)
    {
      assert row[..k + 1][..k] == row[..k];
      if column >= row[k].col {
        add := add + row[k].length;
      }
    }
    assert row[..|row|] == row;
  }

  /**
   The table agrees with the text: after all insertions, the character that was at a line and column is
   at the column the table gives, and deleting what was inserted restores every line.
   */
  lemma TableAgreesWithText(lines: seq<string>, insert: seq<Request>, table: Table, n: nat, c: int)
    requires n < |lines| && 1 <= c <= |lines[n]| && PositiveCols(insert)
    requires TableRight(table, SortedRequests(insert))
    ensures var e := EditAll(lines, SortedRequests(insert))[n];
            var p := Forward(table, n + 1, c);
            1 <= p <= |e| && e[p - 1] == lines[n][c - 1]
  {
    var rs := SortedRequests(insert);
    SortedInOrder(insert);
    forall r | r in rs ensures r.col >= 1 {
      assert r in multiset(rs) && r in multiset(insert);
    }
    CharactersMove(lines[n], n + 1, rs, c);
    assert Forward(table, n + 1, c) == c + Inserted(rs, n + 1, c);
  }

  /** The table also tells how long the line is now, at any column that all insertions are up to. */
  lemma LineGrowsByTable(lines: seq<string>, insert: seq<Request>, table: Table, n: nat, last: int)
    requires n < |lines| && TableRight(table, SortedRequests(insert))
    requires forall r | r in insert && r.line == n + 1 :: r.col <= last
    ensures |EditAll(lines, SortedRequests(insert))[n]| == |lines[n]| + Forward(table, n + 1, last) - last
  {
    var rs := SortedRequests(insert);
    SortedInOrder(insert);
    forall r | r in rs && r.line == n + 1 ensures r.col <= last {
      assert r in multiset(rs) && r in multiset(insert);
    }
    LengthGrows(lines[n], n + 1, rs, last);
    assert Forward(table, n + 1, last) == last + Inserted(rs, n + 1, last);
  }

  // ---------------------------------------------------------------------------------------------
  // And back.

  function ByEntryCol(): (Entry, Entry) -> bool { (a: Entry, b: Entry) => a.col <= b.col }

  ghost predicate Ascending(row: Row) {
    forall i, j | 0 <= i < j < |row| :: row[i].col < row[j].col
  }

  /** The loop over the sorted columns that stops at the first one not passed. */
  function BackStopping(row: Row, col: int): int
    decreases |row|
  {
    if row == [] || col <= row[0].col then col else BackStopping(row[1..], col - row[0].length)
  }

  function Total(row: Row): int
    decreases |row|
  {
    if row == [] then 0 else row[0].length + Total(row[1..])
  }

  /** The column is past the first `k` entries, each time less what those before inserted, and no further. */
  ghost predicate StopsAfter(row: Row, col: int, k: nat) {
    && k <= |row|
    && (forall j | 0 <= j < k :: col - Total(row[..j]) > row[j].col)
    && (k < |row| ==> col - Total(row[..k]) <= row[k].col)
  }

  lemma TotalCons(row: Row, j: nat)
    requires j < |row|
    ensures Total(row[..j + 1]) == row[0].length + Total(row[1..][..j])
  {
    assert row[..j + 1][1..] == row[1..][..j];
  }

  lemma StopsLater(row: Row, col: int, k: nat)
    requires row != [] && col > row[0].col && StopsAfter(row[1..], col - row[0].length, k)
    ensures StopsAfter(row, col, k + 1)
  {
    var rest, left := row[1..], col - row[0].length;
    forall j | 0 <= j < k + 1 ensures col - Total(row[..j]) > row[j].col {
      if j == 0 {
        assert row[..0] == [];
      } else {
        TotalCons(row, j - 1);
        assert left - Total(rest[..j - 1]) > rest[j - 1].col;
      }
    }
    TotalCons(row, k);
  }

  lemma {:induction false} WhereBackStops(row: Row, col: int) returns (k: nat)
    ensures StopsAfter(row, col, k) && BackStopping(row, col) == col - Total(row[..k])
    decreases |row|
  {
    if row == [] || col <= row[0].col {
      k := 0;
      assert row[..0] == [];
    } else {
      var before := WhereBackStops(row[1..], col - row[0].length);
      StopsLater(row, col, before);
      TotalCons(row, before);
      k := before + 1;
    }
  }

  /** The loop that goes on. */
  function BackThroughout(row: Row, col: int): int
    decreases |row|
  {
    if row == [] then col else BackThroughout(row[1..], if col > row[0].col then col - row[0].length else col)
  }

  lemma {:induction false} NothingLeft(row: Row, col: int)
    requires forall k | 0 <= k < |row| :: col <= row[k].col
    ensures BackThroughout(row, col) == col
    decreases |row|
  {
    if row != [] {
      NothingLeft(row[1..], col);
    }
  }

  /** On every column, and whatever the lengths, going on makes no difference. */
  lemma {:induction false} BreakMakesNoDifference(row: Row, col: int)
    requires Ascending(row)
    ensures BackStopping(row, col) == BackThroughout(row, col)
    decreases |row|
  {
    if row != [] {
      if col <= row[0].col {
        NothingLeft(row, col);
      } else {
        BreakMakesNoDifference(row[1..], col - row[0].length);
      }
    }
  }

  /** A row summed from the front. */
  lemma {:induction false} RowSumCons(row: Row, col: int)
    requires row != []
    ensures RowSum(row, col) == RowSum(row[1..], col) + if row[0].col <= col then row[0].length else 0
    decreases |row|
  {
    if |row| > 1 {
      var n := |row| - 1;
      RowSumCons(row[..n], col);
      assert row[..n][1..] == row[1..][..n - 1];
    }
  }

  lemma {:induction false} RowSumInsert(e: Entry, row: Row, col: int)
    ensures RowSum(Insert(e, row, ByEntryCol()), col) == RowSum(row, col) + if e.col <= col then e.length else 0
    decreases |row|
  {
    var r := Insert(e, row, ByEntryCol());
    RowSumCons(r, col);
    if row == [] || ByEntryCol()(e, row[0]) {
      assert r[1..] == row;
    } else {
      RowSumInsert(e, row[1..], col);
      assert r[1..] == Insert(e, row[1..], ByEntryCol());
      RowSumCons(row, col);
    }
  }

  lemma {:induction false} RowSumSorted(row: Row, col: int)
    ensures RowSum(StableSort(row, ByEntryCol()), col) == RowSum(row, col)
    decreases |row|
  {
    if row != [] {
      RowSumSorted(row[1..], col);
      RowSumInsert(row[0], StableSort(row[1..], ByEntryCol()), col);
      RowSumCons(row, col);
    }
  }

  /** Sorting a row of distinct columns makes them ascend and keeps its entries. */
  lemma SortedRow(row: Row)
    requires OneEntryPerCol(row)
    ensures var s := StableSort(row, ByEntryCol());
            Ascending(s) && (PositiveLengths(row) ==> PositiveLengths(s))
  {
    var s := StableSort(row, ByEntryCol());
    SortKeeps(row, ByEntryCol());
    SortRefines(row, ByEntryCol(), (a: Entry, b: Entry) => true);
    forall k | 0 <= k < |s| ensures s[k] in row {
      assert s[k] in multiset(s);
    }
    forall i, j | 0 <= i < j < |s| ensures s[i].col < s[j].col {
      if s[i].col == s[j].col {
        SameColSameEntry(row, s[i], s[j]);
        TwiceInSeq(s, i, j);
        OnceInRow(row, s[i]);
      }
    }
  }

  lemma SameColSameEntry(row: Row, a: Entry, b: Entry)
    requires OneEntryPerCol(row) && a in row && b in row && a.col == b.col
    ensures a == b
  {
  }

  lemma TwiceInSeq(s: Row, i: nat, j: nat)
    requires i < j < |s| && s[i] == s[j]
    ensures multiset(s)[s[i]] >= 2
  {
    assert s == s[..j] + s[j..];
    assert s[i] in s[..j] && s[j] in s[j..];
  }

  lemma {:induction false} OnceInRow(row: Row, e: Entry)
    requires OneEntryPerCol(row)
    ensures multiset(row)[e] <= 1
    decreases |row|
  {
    if row != [] {
      OnceInRow(row[1..], e);
      assert row == [row[0]] + row[1..];
      if row[0] == e {
        assert forall k | 0 <= k < |row[1..]| :: row[1..][k] == row[k + 1] && row[k + 1].col != row[0].col;
        assert e !in row[1..];
        assert multiset(row[1..])[e] == 0;
      }
    }
  }

  lemma {:induction false} NothingAbove(row: Row, col: int)
    requires forall k | 0 <= k < |row| :: col < row[k].col
    ensures RowSum(row, col) == 0
    decreases |row|
  {
    if row != [] {
      NothingAbove(row[..|row| - 1], col);
    }
  }

  /** Moving a column forward and back with an ascending row of positive lengths changes nothing. */
  lemma {:induction false} BackUndoesRow(row: Row, col: int)
    requires Ascending(row) && PositiveLengths(row)
    ensures RowSum(row, col) >= 0 && BackStopping(row, col + RowSum(row, col)) == col
    decreases |row|
  {
    if row != [] {
      RowSumCons(row, col);
      if row[0].col <= col {
        BackUndoesRow(row[1..], col);
      } else {
        NothingAbove(row, col);
      }
    }
  }

  /** Where the writer moves a column back to. */
  function Back(table: Table, line: int, col: int): int {
    if line in table then BackStopping(StableSort(table[line], ByEntryCol()), col) else col
  }

  ghost predicate TableUsable(table: Table) {
    forall line | line in table :: OneEntryPerCol(table[line]) && PositiveLengths(table[line])
  }

  /** The way back undoes the way forward, on every line and column. */
  lemma BackUndoesForward(table: Table, line: int, col: int)
    requires TableUsable(table)
    ensures Back(table, line, Forward(table, line, col)) == col
  {
    if line in table {
      SortedRow(table[line]);
      RowSumSorted(table[line], col);
      BackUndoesRow(StableSort(table[line], ByEntryCol()), col);
    }
  }

  lemma {:induction false} RowSumMonotone(row: Row, a: int, b: int)
    requires PositiveLengths(row) && a <= b
    ensures RowSum(row, a) <= RowSum(row, b)
    decreases |row|
  {
    if row != [] {
      RowSumMonotone(row[..|row| - 1], a, b);
    }
  }

  /** Columns stay in order on their line. */
  lemma ForwardStrictlyIncreasing(table: Table, line: int, a: int, b: int)
    requires TableUsable(table) && a < b
    ensures Forward(table, line, a) < Forward(table, line, b)
  {
    if line in table {
      RowSumMonotone(table[line], a, b);
    }
  }

  /** The way forward undoes the way back exactly on the columns of original characters. */
  lemma ForwardUndoesBackIff(table: Table, line: int, col: int)
    requires TableUsable(table)
    ensures Forward(table, line, Back(table, line, col)) == col <==> exists c :: Forward(table, line, c) == col
  {
    if c :| Forward(table, line, c) == col {
      BackUndoesForward(table, line, c);
    }
  }

  lemma {:induction false} RequestHasLength(rs: seq<Request>, r: Request)
    requires r in rs && r.text != []
    ensures LengthAt(rs, r.line, r.col) > 0
    decreases |rs|
  {
    if r != rs[|rs| - 1] {
      RequestHasLength(rs[..|rs| - 1], r);
    }
  }

  /** A table made from requests that all have a text is usable. */
  lemma RightTableUsable(table: Table, rs: seq<Request>)
    requires TableRight(table, rs) && forall r | r in rs :: r.text != []
    ensures TableUsable(table)
  {
    forall line, k | line in table && 0 <= k < |table[line]| ensures table[line][k].length > 0 {
      assert Requested(rs, line, table[line][k].col);
      var r :| r in rs && r.line == line && r.col == table[line][k].col;
      RequestHasLength(rs, r);
      assert LengthAt(rs, line, table[line][k].col) == table[line][k].length;
    }
  }

  lemma TextsStay(insert: seq<Request>)
    requires forall r | r in insert :: r.text != []
    ensures forall r | r in SortedRequests(insert) :: r.text != []
  {
    SortedInOrder(insert);
    forall r | r in SortedRequests(insert) ensures r.text != [] {
      assert r in multiset(SortedRequests(insert));
    }
  }

  /** Inserting, and then moving a location of the program forward and back, ends where it began. */
  lemma LocationsSurvive(table: Table, insert: seq<Request>, line: int, col: int)
    requires TableRight(table, SortedRequests(insert)) && forall r | r in insert :: r.text != []
    ensures Back(table, line, Forward(table, line, col)) == col
  {
    TextsStay(insert);
    RightTableUsable(table, SortedRequests(insert));
    BackUndoesForward(table, line, col);
  }

  // ---------------------------------------------------------------------------------------------
  // The witness writer.

  datatype Call = Call(line: int, col: int, value: string, cycle: bool)

  function BackCall(table: Table, addLines: int, c: Call): Call {
    c.(line := c.line - addLines, col := Back(table, c.line - addLines, c.col))
  }

  /** A call at the place where a location of the program is now moves back to that location. */
  lemma CallSurvives(table: Table, addLines: int, line: int, col: int, value: string, cycle: bool)
    requires TableUsable(table)
    ensures BackCall(table, addLines, Call(line + addLines, Forward(table, line, col), value, cycle)) ==
            Call(line, col, value, cycle)
  {
    BackUndoesForward(table, line, col);
  }

  class Writer {
    var test: seq<Call>
    var calls: set<(int, int)>
    var errorLoc: Option<(int, int)>
    const shift: Table

    constructor (test: seq<Call>, errorLoc: Option<(int, int)>, shift: Table)
      ensures this.test == test && this.errorLoc == errorLoc && this.shift == shift
    {
      this.test := test;
      this.calls := set c | c in test :: (c.line, c.col);
      this.errorLoc := errorLoc;
      this.shift := shift;
    }

    /** Moves every location back; fails if there is no error location, as for a witness with a cycle. */
    method ShiftBack(addLines: int) returns (ok: bool)
      requires forall line | line in shift :: OneEntryPerCol(shift[line])
      modifies this
      ensures |test| == |old(test)| && forall i | 0 <= i < |test| :: test[i] == BackCall(shift, addLines, old(test)[i])
      ensures calls == set i | 0 <= i < |test| :: (test[i].line, test[i].col)
      ensures ok <==> old(errorLoc).Some?
      ensures ok ==> var (line, col) := old(errorLoc).value;
                     errorLoc == Some((line - addLines, Back(shift, line - addLines, col)))
      ensures !ok ==> errorLoc == old(errorLoc)
    {
      var moved := test;
      var newCalls: set<(int, int)> := {};
      for i := 0 to |test|
        invariant test == old(test) && errorLoc == old(errorLoc) && |moved| == |test|
        invariant forall p | 0 <= p < |test| ::
                  moved[p] == if p < i then BackCall(shift, addLines, test[p]) else test[p]
        invariant newCalls == set p | 0 <= p < i :: (moved[p].line, moved[p].col)
      {
        var ogLine := test[i].line - addLines;
        var ogColumn := test[i].col;
        if ogLine in shift {
          ogColumn := WithBreak(StableSort(shift[ogLine], ByEntryCol()), ogColumn);
        }
        moved := moved[i := Call(ogLine, ogColumn, test[i].value, test[i].cycle)];
        newCalls := newCalls + {(ogLine, ogColumn)};
      }
      test := moved;
      calls := newCalls;

      // last, where the error is
      if errorLoc.None? {
        return false;
      }
      var ogLine := errorLoc.value.0 - addLines;
      var ogColumn := errorLoc.value.1;
      if ogLine in shift {
        SortedRow(shift[ogLine]);
        BreakMakesNoDifference(StableSort(shift[ogLine], ByEntryCol()), ogColumn);
        ogColumn := WithoutBreak(StableSort(shift[ogLine], ByEntryCol()), ogColumn);
      }
      errorLoc := Some((ogLine, ogColumn));
      ok := true;
    }
  }

  method WithBreak(row: Row, col: int) returns (r: int)
    ensures r == BackStopping(row, col)
    ensures exists k: nat :: StopsAfter(row, col, k) && r == col - Total(row[..k])
  {
    ghost var stop := WhereBackStops(row, col);
    r := col;
    var k := 0;
    while k < |row|
      invariant 0 <= k <= |row| && BackStopping(row, col) == BackStopping(row[k..], r)
    {
      if r > row[k].col {
        r := r - row[k].length;
      } else {
        break;
      }
      k := k + 1;
    }
  }

  method WithoutBreak(row: Row, col: int) returns (r: int)
    ensures r == BackThroughout(row, col)
  {
    r := col;
    for k := 0 to |row|
      invariant BackThroughout(row, col) == BackThroughout(row[k..], r)
    {
      if r > row[k].col {
        r := r - row[k].length;
      }
    }
  }

  /**
   A whole validation: the text is edited, the waypoints of a witness are moved with it, and the writer
   finds the calls and the error where the moved waypoints are. The locations written are those of the
   witness read.
   */
  method WitnessSurvives(lines: seq<string>, insert: seq<Request>, segment: seq<Waypoint>, values: seq<string>,
                         addLines: int)
    returns (w: Writer, ok: bool)
    requires forall k | 0 <= k < |insert| ::
               1 <= insert[k].line <= |lines| && insert[k].col >= 1 && insert[k].text != []
    requires segment != [] && |values| == |segment|
    ensures ok && fresh(w) && |w.test| == |segment|
    ensures forall j | 0 <= j < |segment| && segment[j].kind == Other ::
              && w.test[j] == Call(segment[j].line, segment[j].column, values[j], false)
              && (segment[j].line, segment[j].column) in w.calls
    ensures var last := segment[|segment| - 1];
            last.kind == Other ==> w.errorLoc == Some((last.line, last.column))
  {
    var t := new Transformer(lines, insert);
    t.InsertCalls();
    TextsStay(insert);
    RightTableUsable(t.shift, t.insert);
    var moved := t.ShiftWitness([segment], addLines);
    var now := moved[0];
    var test := seq(|segment|, j requires 0 <= j < |segment| => Call(now[j].line, now[j].column, values[j], false));
    var last := now[|segment| - 1];
    w := new Writer(test, Some((last.line, last.column)), t.shift);
    ok := w.ShiftBack(addLines);
    forall j | 0 <= j < |segment| && segment[j].kind == Other
      ensures w.test[j] == Call(segment[j].line, segment[j].column, values[j], false)
    {
      assert moved[0][j].line == segment[j].line + addLines;
      CallSurvives(t.shift, addLines, segment[j].line, segment[j].column, values[j], false);
    }
    BackUndoesForward(t.shift, segment[|segment| - 1].line, segment[|segment| - 1].column);
  }
}
