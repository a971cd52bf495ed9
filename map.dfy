/** The level's tile grid (src/map.rs): tile kinds, grid positions, the map built
    from a text layout, and tile lookup. */
module Maps {
  import opened Wrappers
  import opened Directions
  import opened Text

  /** The kind of a tile. A ramp carries the direction it descends towards. */
  datatype Place = UpperFloor | LowerFloor | Ramp(facing: Direction) | Void | Wall | Exit

  /** What an entity on the grid is: the robot or a box it can push. */
  datatype EntityKind = Robot | Box

  /** A cell of the grid. Coordinates are signed: a position faced from the border of
      the grid lies outside it. */
  datatype GridPos = GridPos(x: int, y: int)

  /** A map: `height` rows of `width` tiles, stored row after row in `layout`. */
  datatype Map = Map(width: nat, height: nat, layout: seq<Place>) {

    predicate Valid() {
      |layout| == width * height
    }

    predicate InBounds(x: int, y: int) {
      0 <= x < width && 0 <= y < height
    }

    /** `Map::tile`: the tile in column `x` of row `y`; the source asserts the bounds. */
    function Tile(x: nat, y: nat): (p: Place)
      requires Valid() && x < width && y < height
      ensures p == Row(y)[x]
    {
      RowMajorIndex(width, height, x, y);
      layout[y * width + x]
    }

    /** Row `y` of the grid. */
    function Row(y: nat): (r: seq<Place>)
      requires Valid() && y < height
      ensures |r| == width
    {
      RowMajorIndex(width, height, 0, y);
      layout[y * width..y * width + width]
    }
  }

  lemma RowMajorIndex(width: nat, height: nat, x: nat, y: nat)
    requires x <= width && y < height
    ensures 0 <= y * width + x <= y * width + width <= width * height
  {
    assert y * width + width == (y + 1) * width;
    assert (y + 1) * width <= height * width by {
      assert y + 1 <= height;
    }
  }

  /** The tile lookup the interpreter and the movement resolver use: total on the whole
      plane, every position outside the grid being `Void`. */
  function TileAt(m: Map, p: GridPos): (r: Place)
    requires m.Valid()
    ensures m.InBounds(p.x, p.y) ==> r == m.Tile(p.x, p.y)
    ensures !m.InBounds(p.x, p.y) ==> r == Void
  {
    if m.InBounds(p.x, p.y) then m.Tile(p.x, p.y) else Void
  }

  // ---------------------------------------------------------------------------
  // Map::from_str

  /** The layout alphabet; `None` for every other character, on which the source panics. */
  function PlaceOf(c: char): (r: Option<Place>)
    ensures r.Some? <==> c == '-' || c == '.' || c == '^' || c == 'v' || c == '<' || c == '>'
                         || c == ' ' || c == 'X' || c == 'o'
    ensures r == Some(Void) <==> c == ' '
  {
    match c
    case '-' => Some(UpperFloor)
    case '.' => Some(LowerFloor)
    case '^' => Some(Ramp(Up))
    case 'v' => Some(Ramp(Down))
    case '<' => Some(Ramp(Left))
    case '>' => Some(Ramp(Right))
    case ' ' => Some(Void)
    case 'X' => Some(Wall)
    case 'o' => Some(Exit)
    case _ => None
  }

  /** Each place but `Void` has exactly one layout character; a space is `Void`. */
  lemma PlaceOfInjective(c1: char, c2: char)
    requires PlaceOf(c1).Some? && PlaceOf(c1) == PlaceOf(c2)
    ensures c1 == c2
  {
  }

  /** Why a layout cannot be read: a character outside the alphabet (a panic in the
      source), or no line at all (the `unwrap` of the maximum width). */
  datatype MapError = UnexpectedChar(c: char) | NoLines

  /** One trimmed layout line read left to right; the first character outside the
      alphabet is the error. */
  function ParseRow(l: string): (r: Result<seq<Place>, MapError>)
    ensures r.Ok? <==> forall i :: 0 <= i < |l| ==> PlaceOf(l[i]).Some?
    ensures r.Ok? ==> |r.value| == |l| && forall i :: 0 <= i < |l| ==> r.value[i] == PlaceOf(l[i]).value
    ensures r.Err? ==> exists i :: 0 <= i < |l| && PlaceOf(l[i]).None? && r.error == UnexpectedChar(l[i])
    decreases |l|
  {
    if l == [] then Ok([])
    else
      var init := l[..|l| - 1];
      var c := l[|l| - 1];
      match ParseRow(init)
      case Err(e) => Err(e)
      case Ok(ps) =>
        match PlaceOf(c)
        case None => Err(UnexpectedChar(c))
        case Some(p) => Ok(ps + [p])
  }

  /** Every line trimmed at its end (`str::trim_end`). */
  function TrimmedLines(ls: seq<string>): (r: seq<string>)
    ensures |r| == |ls| && forall y :: 0 <= y < |ls| ==> r[y] == TrimEnd(ls[y])
  {
    seq(|ls|, y requires 0 <= y < |ls| => TrimEnd(ls[y]))
  }

  /** The trimmed layout lines, each read by `ParseRow`; the first failing line decides
      the error (`RowsErrorPersists`). */
  function ParseRows(ls: seq<string>): (r: Result<seq<seq<Place>>, MapError>)
    ensures r.Ok? ==> |r.value| == |ls| && forall y :: 0 <= y < |ls| ==> ParseRow(ls[y]) == Ok(r.value[y])
    ensures r.Err? ==> exists y :: 0 <= y < |ls| && ParseRow(ls[y]) == Err(r.error)
    decreases |ls|
  {
    if ls == [] then Ok([])
    else
      var n := |ls| - 1;
      var init := ls[..n];
      assert forall y :: 0 <= y < n ==> init[y] == ls[y];
      var rest := ParseRows(init);
      var last := ParseRow(ls[n]);
      if rest.Err? then Err(rest.error)
      else if last.Err? then Err(last.error)
      else Ok(rest.value + [last.value])
  }

  /** The length of the longest row, 0 when there is none. */
  function MaxLen(rows: seq<seq<Place>>): (w: nat)
    ensures forall y :: 0 <= y < |rows| ==> |rows[y]| <= w
    ensures rows != [] ==> exists y :: 0 <= y < |rows| && |rows[y]| == w
    ensures rows == [] ==> w == 0
  {
    if rows == [] then 0
    else
      var w := MaxLen(rows[..|rows| - 1]);
      var n := |rows[|rows| - 1]|;
      if n > w then n else w
  }

  /** A row filled up to `width` with `Void`. */
  function Padded(row: seq<Place>, width: nat): (r: seq<Place>)
    requires |row| <= width
    ensures |r| == width
    ensures forall x :: 0 <= x < width ==> r[x] == if x < |row| then row[x] else Void
  {
    row + seq(width - |row|, _ => Void)
  }

  /** The rows padded to `width` and laid out one after another. */
  function Flatten(rows: seq<seq<Place>>, width: nat): (r: seq<Place>)
    requires forall y :: 0 <= y < |rows| ==> |rows[y]| <= width
    ensures |r| == |rows| * width
  {
    if rows == [] then []
    else Flatten(rows[..|rows| - 1], width) + Padded(rows[|rows| - 1], width)
  }

  lemma {:induction false} FlattenAt(rows: seq<seq<Place>>, width: nat, x: nat, y: nat)
    requires forall k :: 0 <= k < |rows| ==> |rows[k]| <= width
    requires x < width && y < |rows|
    ensures y * width + x < |Flatten(rows, width)|
    ensures Flatten(rows, width)[y * width + x] == Padded(rows[y], width)[x]
  {
    var n := |rows|;
    var init := rows[..n - 1];
    assert |Flatten(init, width)| == (n - 1) * width;
    if y == n - 1 {
      assert y * width + x == |Flatten(init, width)| + x;
    } else {
      FlattenAt(init, width, x, y);
      assert y * width + x < (n - 1) * width;
    }
  }

  /** What `Map::from_str` builds: the layout read line by line, every row then padded
      with `Void` to the width of the longest one. */
  function MapOf(src: string): (r: Result<Map, MapError>)
    ensures ParseRows(TrimmedLines(Lines(src))).Err? ==> r == Err(ParseRows(TrimmedLines(Lines(src))).error)
    ensures src == [] ==> r == Err(NoLines)
    ensures r.Ok? <==> src != [] && ParseRows(TrimmedLines(Lines(src))).Ok?
    ensures r.Ok? ==>
      var rows := ParseRows(TrimmedLines(Lines(src))).value;
      var m := r.value;
      && m.Valid()
      && m.height == |Lines(src)|
      && m.width == MaxLen(rows)
      && (forall y :: 0 <= y < |rows| ==> |rows[y]| == |TrimEnd(Lines(src)[y])|)
      && (forall y, x :: 0 <= y < m.height && 0 <= x < m.width ==>
            m.Tile(x, y) == if x < |rows[y]| then rows[y][x] else Void)
  {
    var parsed := ParseRows(TrimmedLines(Lines(src)));
    if parsed.Err? then Err(parsed.error)
    else if parsed.value == [] then Err(NoLines)
    else
      var rows := parsed.value;
      var width := MaxLen(rows);
      TilesOfFlatten(rows, width);
      RowLengths(Lines(src));
      Ok(Map(width, |rows|, Flatten(rows, width)))
  }

  /** `Map::from_str`: the two loops that read the lines and pad the rows. */
  method FromStr(src: string) returns (r: Result<Map, MapError>)
    ensures r == MapOf(src)
  {
    var srcLines := Lines(src);
    var parsed := ReadLines(srcLines);
    if parsed.Err? {
      return Err(parsed.error);
    }
    var lines := parsed.value;
    if |lines| == 0 {
      return Err(NoLines);
    }
    var width := LongestLine(lines);
    var layout := PadLines(lines, width);
    return Ok(Map(width, |lines|, layout));
  }

  /** Each row read has the length of its trimmed line. */
  lemma RowLengths(ls: seq<string>)
    requires ParseRows(TrimmedLines(ls)).Ok?
    ensures |ParseRows(TrimmedLines(ls)).value| == |ls|
    ensures forall y :: 0 <= y < |ls| ==> |ParseRows(TrimmedLines(ls)).value[y]| == |TrimEnd(ls[y])|
  {
    var ts := TrimmedLines(ls);
    var rows := ParseRows(ts).value;
    forall y | 0 <= y < |ls| ensures |rows[y]| == |TrimEnd(ls[y])| {
      assert ParseRow(ts[y]) == Ok(rows[y]);
    }
  }

  /** Every tile of padded rows laid out row after row. */
  lemma TilesOfFlatten(rows: seq<seq<Place>>, width: nat)
    requires forall k :: 0 <= k < |rows| ==> |rows[k]| <= width
    ensures Map(width, |rows|, Flatten(rows, width)).Valid()
    ensures forall y, x :: 0 <= y < |rows| && 0 <= x < width ==>
      Map(width, |rows|, Flatten(rows, width)).Tile(x, y) == if x < |rows[y]| then rows[y][x] else Void
  {
    assert |rows| * width == width * |rows|;
    forall y, x | 0 <= y < |rows| && 0 <= x < width
      ensures Map(width, |rows|, Flatten(rows, width)).Tile(x, y) == if x < |rows[y]| then rows[y][x] else Void
    {
      TileOfFlatten(rows, width, x, y);
    }
  }

  /** The tiles of padded rows laid out row after row are the rows' places, then `Void`. */
  lemma TileOfFlatten(rows: seq<seq<Place>>, width: nat, x: nat, y: nat)
    requires forall k :: 0 <= k < |rows| ==> |rows[k]| <= width
    requires x < width && y < |rows|
    ensures Map(width, |rows|, Flatten(rows, width)).Valid()
    ensures Map(width, |rows|, Flatten(rows, width)).Tile(x, y) == if x < |rows[y]| then rows[y][x] else Void
  {
    var m := Map(width, |rows|, Flatten(rows, width));
    assert |rows| * width == width * |rows|;
    FlattenAt(rows, width, x, y);
    assert m.Tile(x, y) == m.layout[y * width + x];
  }

  /** The first loop of `from_str`: every line trimmed at its end and read character by
      character into places. */
  method ReadLines(srcLines: seq<string>) returns (r: Result<seq<seq<Place>>, MapError>)
    ensures r == ParseRows(TrimmedLines(srcLines))
  {
    var ts := TrimmedLines(srcLines);
    var lines: seq<seq<Place>> := [];
    for li := 0 to |srcLines|
      invariant ParseRows(ts[..li]) == Ok(lines)
    {
      var line := ReadLine(TrimEnd(srcLines[li]));
      assert ts[..li + 1][..li] == ts[..li];
      if line.Err? {
        RowsErrorPersists(ts, li + 1);
        return Err(line.error);
      }
      lines := lines + [line.value];
    }
    assert ts[..|srcLines|] == ts;
    return Ok(lines);
  }

  /** The inner loop of `from_str`: one trimmed line read character by character. */
  method ReadLine(l: string) returns (r: Result<seq<Place>, MapError>)
    ensures r == ParseRow(l)
  {
    var line: seq<Place> := [];
    for ci := 0 to |l|
      invariant ParseRow(l[..ci]) == Ok(line)
    {
      assert l[..ci + 1][..ci] == l[..ci];
      var place := PlaceOf(l[ci]);
      if place.None? {
        RowErrorPersists(l, ci + 1);
        return Err(UnexpectedChar(l[ci]));
      }
      line := line + [place.value];
    }
    assert l[..|l|] == l;
    return Ok(line);
  }

  /** `lines.iter().map(|l| l.len()).max()`, for at least one line. */
  method LongestLine(lines: seq<seq<Place>>) returns (width: nat)
    requires lines != []
    ensures width == MaxLen(lines)
  {
    width := 0;
    for y := 0 to |lines|
      invariant width == MaxLen(lines[..y])
    {
      assert lines[..y + 1][..y] == lines[..y];
      if |lines[y]| > width {
        width := |lines[y]|;
      }
    }
    assert lines[..|lines|] == lines;
  }

  /** The second loop of `from_str`: each line copied, then `Void` pushed up to `width`. */
  method PadLines(lines: seq<seq<Place>>, width: nat) returns (layout: seq<Place>)
    requires forall y :: 0 <= y < |lines| ==> |lines[y]| <= width
    ensures layout == Flatten(lines, width)
  {
    layout := [];
    for y := 0 to |lines|
      invariant layout == Flatten(lines[..y], width)
    {
      var len := |lines[y]|;
      layout := layout + lines[y];
      for k := len to width
        invariant layout == Flatten(lines[..y], width) + lines[y] + seq(k - len, _ => Void)
      {
        layout := layout + [Void];
      }
      assert lines[..y + 1][..y] == lines[..y];
    }
    assert lines[..|lines|] == lines;
  }

  /** Once a prefix of a line holds a bad character, the whole line fails with it. */
  lemma {:induction false} RowErrorPersists(l: string, k: nat)
    requires k <= |l| && ParseRow(l[..k]).Err?
    ensures ParseRow(l) == ParseRow(l[..k])
    decreases |l| - k
  {
    if k < |l| {
      assert l[..k + 1][..k] == l[..k];
      RowErrorPersists(l, k + 1);
    } else {
      assert l[..k] == l;
    }
  }

  /** Once a prefix of the layout fails, the whole layout fails with the same error. */
  lemma {:induction false} RowsErrorPersists(ls: seq<string>, k: nat)
    requires k <= |ls| && ParseRows(ls[..k]).Err?
    ensures ParseRows(ls) == ParseRows(ls[..k])
    decreases |ls| - k
  {
    if k < |ls| {
      assert ls[..k + 1][..k] == ls[..k];
      RowsErrorPersists(ls, k + 1);
    } else {
      assert ls[..k] == ls;
    }
  }

}
