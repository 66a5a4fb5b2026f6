/** The framebuffer console: text cells, and a screen of which only what changed is drawn again. */
module FbConsole {
  import Arith

  const FONT_WIDTH: nat := 8
  const FONT_HEIGHT: nat := 16
  const FONT_MAX_CP: nat := 0xFF
  const SIZE_MAX: nat := 0xFFFF_FFFF_FFFF_FFFF
  const BS: int := 0x08
  const HT: int := 0x09
  const LF: int := 0x0A
  const VT: int := 0x0B
  const FF: int := 0x0C
  const CR: int := 0x0D
  const WS: int := 0x20
  const DEL: int := 0x7F

  /** The kernel's characters are unsigned. */
  type Char = c: int | 0 <= c < 256

  datatype Cell = Cell(value: Char, dirty: bool)

  // ---------------------------------------------------------------------------------------------
  // A terminal, with no screen to it

  datatype Text = Text(values: seq<Char>, x: nat, y: nat)

  ghost predicate Fits(t: Text, w: nat, h: nat)
  {
    w > 0 && h > 0 && |t.values| == w * h && t.x < w && t.y < h
  }

  function Index(w: nat, x: nat, y: nat): nat
  {
    y * w + x
  }

  function Blanks(n: nat, c: Char): (b: seq<Char>)
    ensures |b| == n && forall i | 0 <= i < n :: b[i] == c
  {
    seq(n, _ => c)
  }

  /** The text one row up, with a blank row at the bottom. */
  ghost function Scrolled(values: seq<Char>, w: nat): seq<Char>
    requires w <= |values|
  {
    values[w..] + Blanks(w, WS)
  }

  ghost function Newline(t: Text, w: nat, h: nat): Text
    requires Fits(t, w, h)
  {
    if t.y + 1 < h then t.(y := t.y + 1)
    else
      Arith.MulGap(h, w);
      t.(values := Scrolled(t.values, w))
  }

  /** What a character does to a terminal. */
  ghost function Feed(t: Text, w: nat, h: nat, c: Char): (r: Text)
    requires Fits(t, w, h)
  {
    if c == BS || c == DEL then t.(x := if t.x > 0 then t.x - 1 else 0)
    else if c == HT then t.(x := if t.x + 4 - t.x % 4 >= w then w - 1 else t.x + 4 - t.x % 4)
    else if c == LF then Newline(t.(x := 0), w, h)
    else if c == VT then Newline(t, w, h)
    else if c == FF then Text(Blanks(w * h, 0), 0, 0)
    else if c == CR then t.(x := 0)
    else
      IndexBound(w, h, t.x, t.y);
      var typed := t.(values := t.values[Index(w, t.x, t.y) := c]);
      if t.x + 1 >= w then Newline(typed.(x := 0), w, h) else typed.(x := t.x + 1)
  }

  lemma FeedFits(t: Text, w: nat, h: nat, c: Char)
    requires Fits(t, w, h)
    ensures Fits(Feed(t, w, h, c), w, h)
  {
    Arith.MulGap(h, w);
    IndexBound(w, h, t.x, t.y);
  }

  ghost function FeedAll(t: Text, w: nat, h: nat, data: seq<Char>): (r: Text)
    requires Fits(t, w, h)
    ensures Fits(r, w, h)
  {
    if data == [] then t
    else
      var before := FeedAll(t, w, h, data[..|data| - 1]);
      FeedFits(before, w, h, data[|data| - 1]);
      Feed(before, w, h, data[|data| - 1])
  }

  /** Writing piece by piece is writing it all at once. */
  lemma {:induction false} FeedInPieces(t: Text, w: nat, h: nat, a: seq<Char>, b: seq<Char>)
    requires Fits(t, w, h)
    ensures FeedAll(t, w, h, a + b) == FeedAll(FeedAll(t, w, h, a), w, h, b)
    decreases |b|
  {
    hide Feed, Fits;
    if b == [] {
      assert a + b == a;
    } else {
      assert (a + b)[..|a + b| - 1] == a + b[..|b| - 1];
      FeedInPieces(t, w, h, a, b[..|b| - 1]);
    }
  }

  lemma IndexBound(w: nat, h: nat, x: nat, y: nat)
    requires x < w && y < h
    ensures Index(w, x, y) < w * h
  {
    Arith.MulMonotone(y + 1, h, w);
    assert (y + 1) * w == y * w + w;
  }

  lemma IndexInverse(w: nat, x: nat, y: nat)
    requires x < w
    ensures Index(w, x, y) % w == x && Index(w, x, y) / w == y
  {
    Arith.DivModUnique(y * w + x, y, x, w);
  }

  lemma IndexOf(w: nat, h: nat, i: nat)
    requires w > 0 && i < w * h
    ensures i % w < w && i / w < h && Index(w, i % w, i / w) == i
  {
    if i / w >= h {
      Arith.MulMonotone(h, i / w, w);
    }
  }

  // ---------------------------------------------------------------------------------------------
  // The screen

  class Console {
    const width: nat
    const height: nat
    const stride: nat
    const font: (nat, nat, nat) -> bool   // Character, column and row in its glyph
    const vtWidth: nat
    const vtHeight: nat
    const screen: array<bool>
    const cells: array<Cell>
    var x: nat
    var y: nat
    var prevX: nat
    var prevY: nat
    var dirtyFirst: nat
    var dirtyLast: nat

    ghost predicate Shaped()
    {
      && vtWidth == width / FONT_WIDTH && vtHeight == height / FONT_HEIGHT && vtWidth > 0 && vtHeight > 0
      && width <= stride && screen.Length == stride * height && cells.Length == vtWidth * vtHeight <= SIZE_MAX
      && (forall gx: nat, gy: nat :: !font(0, gx, gy))
    }

    ghost function Pixel(px: nat, py: nat): bool
      requires Shaped() && px < width && py < height
      reads screen
    {
      IndexBound(stride, height, px, py);
      screen[Index(stride, px, py)]
    }

    /** A pixel of a glyph; a value the font has no glyph for is drawn as the first one. */
    function Ink(value: int, gx: nat, gy: nat): bool
    {
      font(if value < 0 || value > FONT_MAX_CP then 0 else value, gx, gy)
    }

    ghost predicate OnText(px: nat, py: nat)
    {
      px / FONT_WIDTH < vtWidth && py / FONT_HEIGHT < vtHeight
    }

    ghost function CellAt(px: nat, py: nat): nat
      requires Shaped() && OnText(px, py)
      ensures CellAt(px, py) < cells.Length
    {
      IndexBound(vtWidth, vtHeight, px / FONT_WIDTH, py / FONT_HEIGHT);
      Index(vtWidth, px / FONT_WIDTH, py / FONT_HEIGHT)
    }

    ghost predicate In(px: nat, py: nat, sx: nat, sy: nat)
    {
      px / FONT_WIDTH == sx && py / FONT_HEIGHT == sy
    }

    method PutPixel(offset: nat, white: bool, ghost px: nat, ghost py: nat)
      requires Shaped() && px < width && py < height && offset == Index(stride, px, py)
      modifies screen
      ensures forall a: nat, b: nat {:trigger Pixel(a, b)} | a < width && b < height ::
                Pixel(a, b) == if a == px && b == py then white else old(Pixel(a, b))
    {
      IndexBound(stride, height, px, py);
      screen[offset] := white;
      forall a: nat, b: nat {:trigger Pixel(a, b)} | a < width && b < height
        ensures Pixel(a, b) == if a == px && b == py then white else old(Pixel(a, b))
      {
        IndexInverse(stride, a, b);
        IndexInverse(stride, px, py);
      }
    }

    /** Draws the rows of one cell, as ink says. */
    method Draw(sx: nat, sy: nat, value: Char, block: bool)
      requires Shaped() && sx < vtWidth && sy < vtHeight
      modifies screen
      ensures forall a: nat, b: nat {:trigger Pixel(a, b)} | a < width && b < height ::
                Pixel(a, b) == if In(a, b, sx, sy) then block || Ink(value, a % FONT_WIDTH, b % FONT_HEIGHT) else old(Pixel(a, b))
    {
      var pixel := 0;
      var i := sy * FONT_HEIGHT;
      if i > height {
        return;
      }
      pixel := pixel + i * stride;
      i := sx * FONT_WIDTH;
      if i > width {
        return;
      }
      pixel := pixel + i;
      var gy := 0;
      while gy < FONT_HEIGHT
        invariant gy <= FONT_HEIGHT && pixel == (sy * FONT_HEIGHT + gy) * stride + sx * FONT_WIDTH
        invariant forall a: nat, b: nat {:trigger Pixel(a, b)} | a < width && b < height ::
                    Pixel(a, b) == if In(a, b, sx, sy) && b % FONT_HEIGHT < gy
                                   then block || Ink(value, a % FONT_WIDTH, b % FONT_HEIGHT) else old(Pixel(a, b))
      {
        DrawRow(sx, sy, gy, pixel, value, block);
        assert (sy * FONT_HEIGHT + gy + 1) * stride == (sy * FONT_HEIGHT + gy) * stride + stride;
        gy := gy + 1;
        pixel := pixel + stride;
      }
    }

    lemma PixelOf(a: nat, b: nat, sx: nat, sy: nat, gx: nat, gy: nat)
      requires gx < FONT_WIDTH && gy < FONT_HEIGHT
      ensures a == sx * FONT_WIDTH + gx && b == sy * FONT_HEIGHT + gy <==>
                In(a, b, sx, sy) && a % FONT_WIDTH == gx && b % FONT_HEIGHT == gy
    {
    }

    lemma RowPixel(sx: nat, sy: nat, gx: nat, gy: nat, pixel: nat)
      requires Shaped() && sx < vtWidth && sy < vtHeight && gx < FONT_WIDTH && gy < FONT_HEIGHT
      requires pixel == (sy * FONT_HEIGHT + gy) * stride + sx * FONT_WIDTH
      ensures sx * FONT_WIDTH + gx < width && sy * FONT_HEIGHT + gy < height
      ensures pixel + gx == Index(stride, sx * FONT_WIDTH + gx, sy * FONT_HEIGHT + gy)
    {
    }

    method DrawRow(sx: nat, sy: nat, gy: nat, pixel: nat, value: Char, block: bool)
      requires Shaped() && sx < vtWidth && sy < vtHeight && gy < FONT_HEIGHT
      requires pixel == (sy * FONT_HEIGHT + gy) * stride + sx * FONT_WIDTH
      modifies screen
      ensures forall a: nat, b: nat {:trigger Pixel(a, b)} | a < width && b < height ::
                Pixel(a, b) == if In(a, b, sx, sy) && b % FONT_HEIGHT == gy
                               then block || Ink(value, a % FONT_WIDTH, b % FONT_HEIGHT) else old(Pixel(a, b))
    {
      hide In, Ink, Index, Shaped;
      var gx := 0;
      while gx < FONT_WIDTH
        invariant gx <= FONT_WIDTH
        invariant forall a: nat, b: nat {:trigger Pixel(a, b)} | a < width && b < height ::
                    Pixel(a, b) == if In(a, b, sx, sy) && b % FONT_HEIGHT == gy && a % FONT_WIDTH < gx
                                   then block || Ink(value, a % FONT_WIDTH, b % FONT_HEIGHT) else old(Pixel(a, b))
      {
        ghost var px, py := sx * FONT_WIDTH + gx, sy * FONT_HEIGHT + gy;
        RowPixel(sx, sy, gx, gy, pixel);
        PutPixel(pixel + gx, block || Ink(value, gx, gy), px, py);
        forall a: nat, b: nat ensures a == px && b == py <==> In(a, b, sx, sy) && a % FONT_WIDTH == gx && b % FONT_HEIGHT == gy {
          PixelOf(a, b, sx, sy, gx, gy);
        }
        gx := gx + 1;
      }
    }

    // -------------------------------------------------------------------------------------------
    // The cells

    ghost function Values(): (v: seq<Char>)
      reads cells
    {
      seq(cells.Length, (i: nat) requires i < cells.Length reads cells => cells[i].value)
    }

    ghost function Content(): Text
      reads this, cells
    {
      Text(Values(), x, y)
    }

    /** A pixel shows its cell, unless the cell waits to be drawn or has the cursor's block on it. */
    ghost predicate Settled(px: nat, py: nat)
      requires Shaped() && px < width && py < height
      reads this`prevX, this`prevY, screen, cells
    {
      if !OnText(px, py) then !Pixel(px, py)
      else
        var c := cells[CellAt(px, py)];
        c.dirty || In(px, py, prevX, prevY) || Pixel(px, py) == Ink(c.value, px % FONT_WIDTH, py % FONT_HEIGHT)
    }

    ghost predicate Drawn()
      requires Shaped()
      reads this`prevX, this`prevY, screen, cells
    {
      forall a: nat, b: nat {:trigger Settled(a, b)} | a < width && b < height :: Settled(a, b)
    }

    ghost predicate DirtyWithin()
      reads this`dirtyFirst, this`dirtyLast, cells
    {
      forall i | 0 <= i < cells.Length && cells[i].dirty :: dirtyFirst <= i <= dirtyLast
    }

    ghost predicate Valid()
      reads this, screen, cells
    {
      && Shaped() && x < vtWidth && y < vtHeight && prevX < vtWidth && prevY < vtHeight
      && DirtyWithin() && Drawn()
    }

    /** The screen is what drawing every cell and then the cursor would make it. */
    ghost predicate Shown()
      requires Shaped()
      reads this, screen, cells
    {
      forall a: nat, b: nat {:trigger Pixel(a, b)} | a < width && b < height ::
        Pixel(a, b) == (OnText(a, b) && (In(a, b, x, y) || Ink(cells[CellAt(a, b)].value, a % FONT_WIDTH, b % FONT_HEIGHT)))
    }

    method SetCell(index: nat, value: Char)
      requires Valid() && index < cells.Length
      modifies cells, this`dirtyFirst, this`dirtyLast
      ensures Valid() && cells[index].value == value
      ensures forall i | 0 <= i < cells.Length && i != index :: cells[i].value == old(cells[i].value)
    {
      var cell := cells[index];
      if cell.value == value {
        return;
      }
      cells[index] := Cell(value, true);
      if index < dirtyFirst {
        dirtyFirst := index;
      }
      if index > dirtyLast {
        dirtyLast := index;
      }
      hide Ink, In, OnText, CellAt, Pixel;
      forall a: nat, b: nat {:trigger Settled(a, b)} | a < width && b < height ensures Settled(a, b) {
        assert old(Settled(a, b)) && old(Pixel(a, b)) == Pixel(a, b);
      }
    }

    /** One row up, cell by cell from the top; a blank row at the bottom. */
    method ScrollUp()
      requires Valid() && vtWidth <= cells.Length
      modifies cells, this`dirtyFirst, this`dirtyLast
      ensures Valid() && Values() == Scrolled(old(Values()), vtWidth)
    {
      hide Valid;
      ghost var was := Values();
      var subscreen := cells.Length - vtWidth;
      for i := 0 to subscreen
        invariant Valid()
        invariant forall k | 0 <= k < i :: cells[k].value == was[k + vtWidth]
        invariant forall k | i <= k < cells.Length :: cells[k].value == was[k]
      {
        SetCell(i, cells[i + vtWidth].value);
      }
      for i := subscreen to cells.Length
        invariant Valid()
        invariant forall k | 0 <= k < subscreen :: cells[k].value == was[k + vtWidth]
        invariant forall k | subscreen <= k < i :: cells[k].value == WS
      {
        SetCell(i, WS);
      }
      assert Values() == Scrolled(was, vtWidth);
    }

    method DoNewline()
      requires Valid()
      modifies cells, this`dirtyFirst, this`dirtyLast, this`y
      ensures Valid() && Fits(old(Content()), vtWidth, vtHeight) && Content() == Newline(old(Content()), vtWidth, vtHeight)
    {
      hide Drawn, DirtyWithin, Scrolled;
      y := y + 1;
      if y >= vtHeight {
        y := vtHeight - 1;
        Arith.MulMonotone(1, vtHeight, vtWidth);
        ScrollUp();
      }
    }

    // -------------------------------------------------------------------------------------------
    // Drawing

    lemma CellUnique(px: nat, py: nat, sx: nat, sy: nat)
      requires Shaped() && OnText(px, py) && sx < vtWidth && sy < vtHeight
      ensures In(px, py, sx, sy) <==> CellAt(px, py) == Index(vtWidth, sx, sy)
    {
      IndexInverse(vtWidth, px / FONT_WIDTH, py / FONT_HEIGHT);
      IndexInverse(vtWidth, sx, sy);
    }

    lemma InIsOnText(px: nat, py: nat, sx: nat, sy: nat)
      requires sx < vtWidth && sy < vtHeight
      ensures In(px, py, sx, sy) ==> OnText(px, py)
    {
    }

    /** Draws a dirty cell, which then shows. */
    method Clean(i: nat)
      requires Shaped() && Drawn() && i < cells.Length
      modifies screen, cells
      ensures Drawn() && cells[i] == old(cells[i]).(dirty := false)
      ensures forall k | 0 <= k < cells.Length && k != i :: cells[k] == old(cells[k])
    {
      IndexOf(vtWidth, vtHeight, i);
      var sx, sy := i % vtWidth, i / vtWidth;
      Draw(sx, sy, cells[i].value, false);
      cells[i] := Cell(cells[i].value, false);
      hide CellAt, In, OnText, Ink, Pixel;
      forall a: nat, b: nat {:trigger Settled(a, b)} | a < width && b < height ensures Settled(a, b) {
        assert old(Settled(a, b));
        assert Pixel(a, b) == if In(a, b, sx, sy) then Ink(old(cells[i]).value, a % FONT_WIDTH, b % FONT_HEIGHT) else old(Pixel(a, b));
        InIsOnText(a, b, sx, sy);
        if OnText(a, b) {
          CellUnique(a, b, sx, sy);
        }
      }
    }

    /** The cell where the cursor was, and the cursor where it is. */
    method MoveCursor()
      requires Shaped() && x < vtWidth && y < vtHeight && prevX < vtWidth && prevY < vtHeight && Drawn()
      requires forall k | 0 <= k < cells.Length :: !cells[k].dirty
      modifies screen, this`prevX, this`prevY
      ensures Drawn() && Shown() && prevX == x && prevY == y
    {
      IndexBound(vtWidth, vtHeight, prevX, prevY);
      var value := cells[Index(vtWidth, prevX, prevY)].value;
      Draw(prevX, prevY, value, false);
      ghost var px, py := prevX, prevY;
      label Restored:
      hide CellAt, In, OnText, Ink, Pixel;
      forall a: nat, b: nat {:trigger Pixel(a, b)} | a < width && b < height
        ensures Pixel(a, b) == (OnText(a, b) && Ink(cells[CellAt(a, b)].value, a % FONT_WIDTH, b % FONT_HEIGHT))
      {
        assert old(Settled(a, b));
        InIsOnText(a, b, px, py);
        if OnText(a, b) {
          CellUnique(a, b, px, py);
        }
      }
      Draw(x, y, 0, true);
      prevX := x;
      prevY := y;
      forall a: nat, b: nat {:trigger Pixel(a, b)} | a < width && b < height
        ensures Settled(a, b)
        ensures Pixel(a, b) == (OnText(a, b) && (In(a, b, x, y) || Ink(cells[CellAt(a, b)].value, a % FONT_WIDTH, b % FONT_HEIGHT)))
      {
        assert old@Restored(Pixel(a, b)) == (OnText(a, b) && Ink(cells[CellAt(a, b)].value, a % FONT_WIDTH, b % FONT_HEIGHT));
        InIsOnText(a, b, x, y);
      }
      forall a: nat, b: nat {:trigger Settled(a, b)} | a < width && b < height ensures Settled(a, b) {
        assert Pixel(a, b) == Pixel(a, b);
      }
    }

    method DoRedraw()
      requires Valid()
      modifies screen, cells, this`prevX, this`prevY, this`dirtyFirst, this`dirtyLast
      ensures Valid() && Shown() && Content() == old(Content())
    {
      hide Drawn, Shown;
      var i := dirtyFirst;
      while i <= dirtyLast && i < cells.Length
        invariant Drawn() && forall k | 0 <= k < cells.Length :: cells[k].value == old(cells[k].value)
        invariant forall k | 0 <= k < cells.Length && cells[k].dirty :: i <= k <= dirtyLast
        modifies screen, cells
      {
        if cells[i].dirty {
          Clean(i);
        }
        i := i + 1;
      }
      dirtyFirst := SIZE_MAX;
      dirtyLast := 0;
      MoveCursor();
      assert Values() == old(Values());
    }

    // -------------------------------------------------------------------------------------------
    // Characters

    method DoClear()
      requires Shaped()
      modifies screen, cells, this`dirtyFirst, this`dirtyLast
      ensures forall a: nat, b: nat {:trigger Pixel(a, b)} | a < width && b < height :: !Pixel(a, b)
      ensures forall i | 0 <= i < cells.Length :: cells[i] == Cell(0, false)
      ensures dirtyFirst == SIZE_MAX && dirtyLast == 0
    {
      var py: nat := 0;
      while py < height
        invariant py <= height && forall a: nat, b: nat {:trigger Pixel(a, b)} | a < width && b < py :: !Pixel(a, b)
        modifies screen
      {
        var px: nat := 0;
        while px < width
          invariant px <= width
          invariant forall a: nat, b: nat {:trigger Pixel(a, b)} | a < width && b < height && (b < py || (b == py && a < px)) ::
                      !Pixel(a, b)
        {
          PutPixel(py * stride + px, false, px, py);
          px := px + 1;
        }
        py := py + 1;
      }
      for i := 0 to cells.Length
        invariant forall k | 0 <= k < i :: cells[k] == Cell(0, false)
        modifies cells
      {
        cells[i] := Cell(0, false);
      }
      dirtyFirst := SIZE_MAX;
      dirtyLast := 0;
    }

    method DoReset()
      requires Shaped()
      modifies this, screen, cells
      ensures Valid() && Content() == Text(Blanks(vtWidth * vtHeight, 0), 0, 0)
    {
      DoClear();
      prevX := 0;
      prevY := 0;
      x := 0;
      y := 0;
      assert Values() == Blanks(vtWidth * vtHeight, 0);
      hide CellAt, In, OnText, Pixel;
      forall a: nat, b: nat {:trigger Settled(a, b)} | a < width && b < height ensures Settled(a, b) {
        assert !Pixel(a, b) && (OnText(a, b) ==> cells[CellAt(a, b)] == Cell(0, false)) && !Ink(0, a % FONT_WIDTH, b % FONT_HEIGHT);
      }
    }

    method PutChar(c: Char)
      requires Valid()
      modifies this, screen, cells
      ensures Valid() && Fits(old(Content()), vtWidth, vtHeight) && Content() == Feed(old(Content()), vtWidth, vtHeight, c)
    {
      hide Drawn, DirtyWithin, Scrolled, Index;
      if c == BS || c == DEL {
        if x > 0 {
          x := x - 1;
        }
      } else if c == HT {
        x := x + (4 - x % 4);
        if x >= vtWidth {
          x := vtWidth - 1;
        }
      } else if c == LF {
        x := 0;
        DoNewline();
      } else if c == VT {
        DoNewline();
      } else if c == FF {
        DoReset();
      } else if c == CR {
        x := 0;
      } else {
        IndexBound(vtWidth, vtHeight, x, y);
        SetCell(Index(vtWidth, x, y), c);
        assert Values() == old(Values())[Index(vtWidth, x, y) := c];
        x := x + 1;
        if x >= vtWidth {
          x := 0;
          DoNewline();
        }
      }
    }

    /** After a write the text is what a terminal makes of the bytes, and the screen shows it. */
    method Write(data: seq<Char>)
      requires Valid()
      modifies this, screen, cells
      ensures Valid() && Shown()
      ensures Fits(old(Content()), vtWidth, vtHeight) && Content() == FeedAll(old(Content()), vtWidth, vtHeight, data)
    {
      ghost var was := Content();
      assert Fits(was, vtWidth, vtHeight) && FeedAll(was, vtWidth, vtHeight, data[..0]) == was;
      for i := 0 to |data|
        invariant Valid() && Content() == FeedAll(was, vtWidth, vtHeight, data[..i])
      {
        hide Drawn, DirtyWithin, Feed;
        assert data[..i + 1][..i] == data[..i];
        PutChar(data[i]);
      }
      assert data[..|data|] == data;
      DoRedraw();
    }

    constructor (width: nat, height: nat, stride: nat, font: (nat, nat, nat) -> bool, screen: array<bool>)
      requires width >= FONT_WIDTH && height >= FONT_HEIGHT && width <= stride && screen.Length == stride * height
      requires (width / FONT_WIDTH) * (height / FONT_HEIGHT) <= SIZE_MAX && forall gx: nat, gy: nat :: !font(0, gx, gy)
      modifies screen
      ensures Valid() && this.screen == screen && fresh(cells) && Content() == Text(Blanks(vtWidth * vtHeight, 0), 0, 0)
    {
      this.width, this.height, this.stride, this.font, this.screen := width, height, stride, font, screen;
      vtWidth, vtHeight := width / FONT_WIDTH, height / FONT_HEIGHT;
      cells := new Cell[(width / FONT_WIDTH) * (height / FONT_HEIGHT)](_ => Cell(0, false));
      new;
      DoReset();
    }
  }
}
