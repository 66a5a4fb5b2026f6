/** What the console's terminal shows for the bytes written to it, cell by cell. */
module FbTerminal {
  import Arith
  import opened FbConsole

  predicate Printable(c: Char)
  {
    c != BS && c != HT && c != LF && c != VT && c != FF && c != CR && c != DEL
  }

  /** The cell in this column and row. */
  ghost function At(t: Text, w: nat, h: nat, a: nat, b: nat): Char
    requires Fits(t, w, h) && a < w && b < h
  {
    IndexBound(w, h, a, b);
    t.values[Index(w, a, b)]
  }

  ghost predicate SameCells(t: Text, r: Text, w: nat, h: nat)
    requires Fits(t, w, h) && Fits(r, w, h)
  {
    forall a: nat, b: nat | a < w && b < h :: At(r, w, h, a, b) == At(t, w, h, a, b)
  }

  /** The next multiple of four, but the last column where there is none. */
  ghost predicate Tabbed(x: nat, r: nat, w: nat)
  {
    if exists m: nat :: x < 4 * m < w then x < r < w && r % 4 == 0 && r - x <= 4 else r == w - 1
  }

  lemma Tab(x: nat, w: nat)
    requires x < w
    ensures Tabbed(x, if x + 4 - x % 4 >= w then w - 1 else x + 4 - x % 4, w)
  {
    var next := 4 * (x / 4 + 1);
    assert next == x + 4 - x % 4 && next % 4 == 0;
    if next < w {
      assert x < 4 * (x / 4 + 1) < w;
    } else {
      forall m: nat ensures !(x < 4 * m < w) {
        assert x < 4 * m ==> x / 4 < m;
      }
    }
  }

  /** What the control characters do to the cursor; only a form feed and the bottom row's line ends change cells. */
  lemma Controls(t: Text, w: nat, h: nat, c: Char)
    requires Fits(t, w, h) && !Printable(c)
    ensures Fits(Feed(t, w, h, c), w, h)
    ensures var r := Feed(t, w, h, c);
            match c
            case 0x08 => SameCells(t, r, w, h) && r.y == t.y && r.x == if t.x == 0 then 0 else t.x - 1
            case 0x7F => SameCells(t, r, w, h) && r.y == t.y && r.x == if t.x == 0 then 0 else t.x - 1
            case 0x09 => SameCells(t, r, w, h) && r.y == t.y && Tabbed(t.x, r.x, w)
            case 0x0A => MovedDown(t, r, w, h) && r.x == 0
            case 0x0B => MovedDown(t, r, w, h) && r.x == t.x
            case 0x0C => Cleared(r, w, h)
            case _ => SameCells(t, r, w, h) && r.y == t.y && r.x == 0
  {
    FeedFits(t, w, h, c);
    Tab(t.x, w);
    NewlineMoves(t.(x := 0), w, h);
    NewlineMoves(t, w, h);
    MovedFrom(t.(x := 0), t, Newline(t.(x := 0), w, h), w, h);
    forall a: nat, b: nat | a < w && b < h ensures Index(w, a, b) < w * h { IndexBound(w, h, a, b); }
  }

  lemma MovedFrom(s: Text, t: Text, r: Text, w: nat, h: nat)
    requires Fits(s, w, h) && Fits(t, w, h) && Fits(r, w, h) && s.values == t.values && s.y == t.y && MovedDown(s, r, w, h)
    ensures MovedDown(t, r, w, h)
  {
    forall a: nat, b: nat | a < w && b < h ensures At(s, w, h, a, b) == At(t, w, h, a, b) {}
  }

  /** One row further down, or at the bottom all rows one up and a blank one below them. */
  ghost predicate MovedDown(t: Text, r: Text, w: nat, h: nat)
    requires Fits(t, w, h) && Fits(r, w, h)
  {
    if t.y + 1 < h then r.y == t.y + 1 && SameCells(t, r, w, h)
    else
      r.y == t.y && forall a: nat, b: nat | a < w && b < h :: At(r, w, h, a, b) == if b + 1 < h then At(t, w, h, a, b + 1) else WS
  }

  lemma NewlineMoves(t: Text, w: nat, h: nat)
    requires Fits(t, w, h)
    ensures var r := Newline(t, w, h); Fits(r, w, h) && r.x == t.x && MovedDown(t, r, w, h)
  {
    Arith.MulGap(h, w);
    if t.y + 1 >= h {
      var r := Newline(t, w, h);
      forall a: nat, b: nat | a < w && b < h
        ensures At(r, w, h, a, b) == if b + 1 < h then At(t, w, h, a, b + 1) else WS
      {
        UpOne(t.values, w, h, a, b);
      }
    }
  }

  lemma UpOne(values: seq<Char>, w: nat, h: nat, a: nat, b: nat)
    requires |values| == w * h && a < w && b < h && w <= |values|
    ensures Index(w, a, b) < w * h && |Scrolled(values, w)| == w * h
    ensures b + 1 < h ==> Index(w, a, b + 1) < w * h && Scrolled(values, w)[Index(w, a, b)] == values[Index(w, a, b + 1)]
    ensures b + 1 == h ==> Scrolled(values, w)[Index(w, a, b)] == WS
  {
    IndexBound(w, h, a, b);
    assert (b + 1) * w == b * w + w;
    if b + 1 < h {
      IndexBound(w, h, a, b + 1);
    }
  }

  /** A printable byte goes where the cursor is, and nowhere else. */
  ghost function Typed(t: Text, w: nat, h: nat, c: Char): (r: Text)
    requires Fits(t, w, h)
    ensures Fits(r, w, h) && r.x == t.x && r.y == t.y
  {
    IndexBound(w, h, t.x, t.y);
    t.(values := t.values[Index(w, t.x, t.y) := c])
  }

  lemma TypedCells(t: Text, w: nat, h: nat, c: Char, a: nat, b: nat)
    requires Fits(t, w, h) && a < w && b < h
    ensures At(Typed(t, w, h, c), w, h, a, b) == if a == t.x && b == t.y then c else At(t, w, h, a, b)
  {
    IndexBound(w, h, t.x, t.y);
    IndexBound(w, h, a, b);
    IndexInverse(w, t.x, t.y);
    IndexInverse(w, a, b);
  }

  lemma FeedPrintable(t: Text, w: nat, h: nat, c: Char)
    requires Fits(t, w, h) && Printable(c)
    ensures var typed := Typed(t, w, h, c);
            Feed(t, w, h, c) == if t.x + 1 < w then typed.(x := t.x + 1) else Newline(typed.(x := 0), w, h)
  {
  }

  /** Printable bytes that stay in the row fill the cells from the cursor on and take the cursor along. */
  lemma {:induction false} PrintablesFill(t: Text, w: nat, h: nat, data: seq<Char>)
    requires Fits(t, w, h) && (forall c | c in data :: Printable(c)) && t.x + |data| < w
    ensures var r := FeedAll(t, w, h, data);
            && r.x == t.x + |data| && r.y == t.y
            && forall a: nat, b: nat | a < w && b < h ::
                 At(r, w, h, a, b) == if b == t.y && t.x <= a < t.x + |data| then data[a - t.x] else At(t, w, h, a, b)
    decreases |data|
  {
    if data != [] {
      var init, c := data[..|data| - 1], data[|data| - 1];
      PrintablesFill(t, w, h, init);
      var p := FeedAll(t, w, h, init);
      FeedPrintable(p, w, h, c);
      assert c in data;
      hide At, Feed, Typed;
      forall a: nat, b: nat | a < w && b < h
        ensures At(FeedAll(t, w, h, data), w, h, a, b) == if b == t.y && t.x <= a < t.x + |data| then data[a - t.x] else At(t, w, h, a, b)
      {
        TypedCells(p, w, h, c, a, b);
        CursorAside(Typed(p, w, h, c), p.x + 1, w, h, a, b);
      }
    }
  }

  lemma CursorAside(t: Text, x: nat, w: nat, h: nat, a: nat, b: nat)
    requires Fits(t, w, h) && x < w && a < w && b < h
    ensures Fits(t.(x := x), w, h) && At(t.(x := x), w, h, a, b) == At(t, w, h, a, b)
  {
  }

  // ---------------------------------------------------------------------------------------------
  // Text as rows, however many, with no screen they would have to fit on

  /** The rows that are complete, and the one being written. */
  datatype Rows = Rows(done: seq<seq<Char>>, cur: seq<Char>)

  /** A row ends with a line feed or when it is full. */
  function Laid(data: seq<Char>, w: nat): Rows
  {
    if data == [] then Rows([], [])
    else
      var r, c := Laid(data[..|data| - 1], w), data[|data| - 1];
      if c == LF then Rows(r.done + [r.cur], [])
      else if |r.cur| + 1 >= w then Rows(r.done + [r.cur + [c]], [])
      else Rows(r.done, r.cur + [c])
  }

  /** How many rows have gone off the top of a screen of h rows, with the cursor's row on it. */
  function Top(done: nat, h: nat): nat
  {
    if done + 1 > h then done + 1 - h else 0
  }

  function Row(r: Rows, n: nat): seq<Char>
  {
    if n < |r.done| then r.done[n] else if n == |r.done| then r.cur else []
  }

  /** Rows that were on the screen from the start are padded with what a reset leaves, later ones with spaces. */
  function Padded(row: seq<Char>, n: nat, h: nat, a: nat): Char
  {
    if a < |row| then row[a] else if n < h then 0 else WS
  }

  ghost predicate Shows(t: Text, w: nat, h: nat, r: Rows)
    requires Fits(t, w, h)
  {
    && t.y == |r.done| - Top(|r.done|, h)
    && forall a: nat, b: nat | a < w && b < h ::
         At(t, w, h, a, b) == Padded(Row(r, Top(|r.done|, h) + b), Top(|r.done|, h) + b, h, a)
  }

  /** As an attached console starts, and as a form feed leaves it. */
  ghost predicate Cleared(t: Text, w: nat, h: nat)
    requires Fits(t, w, h)
  {
    t.x == t.y == 0 && forall a: nat, b: nat | a < w && b < h :: At(t, w, h, a, b) == 0
  }

  lemma EmptyShows(t: Text, w: nat, h: nat)
    requires Fits(t, w, h) && Cleared(t, w, h)
    ensures Shows(t, w, h, Rows([], []))
  {
    hide At;
  }

  /** The row being written gets one more. */
  lemma TypedShows(t: Text, w: nat, h: nat, r: Rows, c: Char)
    requires Fits(t, w, h) && Shows(t, w, h, r) && t.x == |r.cur|
    ensures Shows(Typed(t, w, h, c), w, h, r.(cur := r.cur + [c]))
  {
    hide At, Typed;
    var s, top := r.(cur := r.cur + [c]), Top(|r.done|, h);
    forall a: nat, b: nat | a < w && b < h
      ensures At(Typed(t, w, h, c), w, h, a, b) == Padded(Row(s, top + b), top + b, h, a)
    {
      TypedCells(t, w, h, c, a, b);
    }
  }

  lemma MovedShows(t: Text, u: Text, w: nat, h: nat, r: Rows)
    requires Fits(t, w, h) && Fits(u, w, h) && Shows(t, w, h, r) && MovedDown(t, u, w, h)
    ensures Shows(u, w, h, Rows(r.done + [r.cur], []))
  {
    hide At;
    var s := Rows(r.done + [r.cur], []);
    var top, low := Top(|r.done|, h), Top(|s.done|, h);
    assert low == if t.y + 1 < h then top else top + 1;
    forall a: nat, b: nat | a < w && b < h ensures At(u, w, h, a, b) == Padded(Row(s, low + b), low + b, h, a) {
      SameRow(r, s, low + b);
    }
  }

  lemma SameRow(r: Rows, s: Rows, n: nat)
    requires s == Rows(r.done + [r.cur], [])
    ensures Row(s, n) == Row(r, n)
  {
  }

  lemma CursorShows(t: Text, x: nat, w: nat, h: nat, r: Rows)
    requires Fits(t, w, h) && x < w && Shows(t, w, h, r)
    ensures Fits(t.(x := x), w, h) && Shows(t.(x := x), w, h, r)
  {
    forall a: nat, b: nat | a < w && b < h ensures At(t.(x := x), w, h, a, b) == At(t, w, h, a, b) {
      CursorAside(t, x, w, h, a, b);
    }
  }

  /** One byte further. */
  lemma StepShows(t: Text, w: nat, h: nat, r: Rows, c: Char)
    requires Fits(t, w, h) && Shows(t, w, h, r) && t.x == |r.cur| && (Printable(c) || c == LF)
    ensures var u := Feed(t, w, h, c);
            var s := if c == LF then Rows(r.done + [r.cur], [])
                     else if |r.cur| + 1 >= w then Rows(r.done + [r.cur + [c]], [])
                     else Rows(r.done, r.cur + [c]);
            Fits(u, w, h) && Shows(u, w, h, s) && u.x == |s.cur|
  {
    FeedFits(t, w, h, c);
    if c == LF {
      Controls(t, w, h, c);
      hide Shows, MovedDown, Feed;
      MovedShows(t, Feed(t, w, h, c), w, h, r);
    } else {
      FeedPrintable(t, w, h, c);
      hide Shows, MovedDown, Feed, Typed, Newline;
      TypedShows(t, w, h, r, c);
      var typed, s := Typed(t, w, h, c), r.(cur := r.cur + [c]);
      if t.x + 1 < w {
        CursorShows(typed, t.x + 1, w, h, s);
      } else {
        CursorShows(typed, 0, w, h, s);
        NewlineMoves(typed.(x := 0), w, h);
        MovedShows(typed.(x := 0), Newline(typed.(x := 0), w, h), w, h, s);
      }
    }
  }

  lemma {:induction false} LaidShows(t: Text, w: nat, h: nat, data: seq<Char>)
    requires Fits(t, w, h) && Shows(t, w, h, Rows([], [])) && t.x == 0 && forall c | c in data :: Printable(c) || c == LF
    ensures var r := FeedAll(t, w, h, data); Shows(r, w, h, Laid(data, w)) && r.x == |Laid(data, w).cur|
    decreases |data|
  {
    hide Shows, Feed;
    if data != [] {
      var init, c := data[..|data| - 1], data[|data| - 1];
      LaidShows(t, w, h, init);
      assert c in data;
      StepShows(FeedAll(t, w, h, init), w, h, Laid(init, w), c);
    }
  }

  /**
   * On a terminal that is clear, any text of printable bytes and line feeds shows as its rows do that are still on the
   * screen: row b is row Top + b of the text, and the cursor stands behind the last byte.
   */
  lemma TextShows(t: Text, w: nat, h: nat, data: seq<Char>, a: nat, b: nat)
    requires Fits(t, w, h) && Cleared(t, w, h) && (forall c | c in data :: Printable(c) || c == LF) && a < w && b < h
    ensures var u := FeedAll(t, w, h, data);
            var r := Laid(data, w);
            var top := Top(|r.done|, h);
            u.x == |r.cur| && u.y == |r.done| - top && At(u, w, h, a, b) == Padded(Row(r, top + b), top + b, h, a)
  {
    hide Feed, Fits, At;
    EmptyShows(t, w, h);
    LaidShows(t, w, h, data);
  }

  // ---------------------------------------------------------------------------------------------
  // Lines

  function Lines(lines: seq<seq<Char>>): seq<Char>
  {
    if lines == [] then [] else Lines(lines[..|lines| - 1]) + lines[|lines| - 1] + [LF]
  }

  lemma {:induction false} LaidLine(data: seq<Char>, line: seq<Char>, w: nat)
    requires Laid(data, w).cur == [] && (forall c | c in line :: Printable(c)) && |line| < w
    ensures Laid(data + line, w) == Rows(Laid(data, w).done, line)
    decreases |line|
  {
    if line == [] {
      assert data + line == data;
    } else {
      var init, c := line[..|line| - 1], line[|line| - 1];
      LaidLine(data, init, w);
      assert (data + line)[..|data + line| - 1] == data + init && (data + line)[|data + line| - 1] == c && c in line;
      assert line == init + [c];
    }
  }

  lemma {:induction false} LaidLines(lines: seq<seq<Char>>, w: nat)
    requires forall line | line in lines :: |line| < w && forall c | c in line :: Printable(c)
    ensures Laid(Lines(lines), w) == Rows(lines, []) && forall c | c in Lines(lines) :: Printable(c) || c == LF
  {
    hide Printable, Laid;
    if lines == [] {
      LaidNothing(w);
    } else {
      var init, line := lines[..|lines| - 1], lines[|lines| - 1];
      LaidLines(init, w);
      assert line in lines;
      LaidLine(Lines(init), line, w);
      LaidEnd(Lines(init) + line, w);
      assert lines == init + [line];
    }
  }

  lemma LaidNothing(w: nat)
    ensures Laid([], w) == Rows([], [])
  {
  }

  lemma LaidEnd(data: seq<Char>, w: nat)
    ensures Laid(data + [LF], w) == Rows(Laid(data, w).done + [Laid(data, w).cur], [])
  {
    assert (data + [LF])[..|data + [LF]| - 1] == data;
  }

  /**
   * Lines shorter than the screen is wide, each ended by a line feed: the last h - 1 of them are on the screen from the top
   * on, or all if there are fewer, each padded, and the cursor is at the start of the row after them.
   */
  lemma LinesShow(t: Text, w: nat, h: nat, lines: seq<seq<Char>>, a: nat, b: nat)
    requires Fits(t, w, h) && Cleared(t, w, h) && a < w && b < h
    requires forall line | line in lines :: |line| < w && forall c | c in line :: Printable(c)
    ensures var u := FeedAll(t, w, h, Lines(lines));
            var top := if |lines| < h then 0 else |lines| - (h - 1);
            && u.x == 0 && u.y == |lines| - top
            && (top + b < |lines| && a < |lines[top + b]| ==> At(u, w, h, a, b) == lines[top + b][a])
            && (top + b >= |lines| || a >= |lines[top + b]| ==> At(u, w, h, a, b) == if top + b < h then 0 else WS)
  {
    hide Fits, FeedAll, At, Laid, Lines, Printable, Cleared;
    LaidLines(lines, w);
    TextShows(t, w, h, Lines(lines), a, b);
  }
}
