/** The hover logic of `viz_umap_plot` in embedly/visualizer.py: the marker
    colours and scatter coordinates taken from the loaded table, and
    `display_hover`, which turns Plotly's hover data into the tooltip's
    visibility, bounding box, children and direction. */
module Visualizer {
  import opened Outcomes
  import Text

  /** A loaded CSV: its column names and its rows by position, each row giving
      every column the text `str()` prints for its cell. */
  datatype Table = Table(columns: set<string>, rows: seq<map<string, string>>)

  predicate WellFormed(t: Table)
  {
    forall i :: 0 <= i < |t.rows| ==> t.rows[i].Keys == t.columns
  }

  /** The parameters of `viz_umap_plot` the hover callback reads. */
  datatype Config = Config(urlCol: string, displayColumns: seq<string>, widthPx: int, heightPx: int)

  /** The pixel box Plotly reports around a hovered point. */
  datatype BBox = BBox(x0: real, x1: real, y0: real, y1: real)

  /** One entry of `hoverData["points"]`. */
  datatype HoverPoint = HoverPoint(bbox: BBox, y: real, pointNumber: nat)

  datatype Direction = Top | Bottom

  /** The Dash components of the tooltip: `html.Img` with its style's width
      and height, and `html.P` with its text. */
  datatype Element = Img(src: string, width: string, height: string) | P(text: string)

  /** `Hidden` is `(False, no_update, no_update, no_update)`; `Show` is
      `(True, bbox, children, direction)`. */
  datatype Tooltip = Hidden | Show(bbox: BBox, children: seq<Element>, direction: Direction)

  /** The exceptions the callback can raise: an empty `points` list
      (IndexError), a position past the last row (IndexError from `iloc`), a
      missing column (KeyError). */
  datatype HoverError = NoPoints | RowOutOfRange(n: nat) | MissingColumn(col: string)

  const DirectionThreshold: real := 1.5

  /** `data_df[col]`: the column's cells in row order. */
  function Column(rows: seq<map<string, string>>, col: string): (r: seq<string>)
    requires forall i :: 0 <= i < |rows| ==> col in rows[i]
    ensures |r| == |rows|
    ensures forall i :: 0 <= i < |r| ==> r[i] == rows[i][col]
  {
    if rows == [] then [] else [rows[0][col]] + Column(rows[1..], col)
  }

  /** The scatter's `x` and `y`: the two embedding columns, in row order. */
  function Scatter(t: Table, col0: string, col1: string): (r: Result<(seq<string>, seq<string>), HoverError>)
    requires WellFormed(t)
    ensures r.Ok? <==> col0 in t.columns && col1 in t.columns
    ensures r.Err? ==> r.error == MissingColumn(if col0 !in t.columns then col0 else col1)
    ensures r.Ok? ==> |r.value.0| == |t.rows| && |r.value.1| == |t.rows|
    ensures r.Ok? ==> forall i :: 0 <= i < |t.rows| ==> r.value.0[i] == t.rows[i][col0] && r.value.1[i] == t.rows[i][col1]
  {
    if col0 !in t.columns then Err(MissingColumn(col0))
    else if col1 !in t.columns then Err(MissingColumn(col1))
    else Ok((Column(t.rows, col0), Column(t.rows, col1)))
  }

  /** The marker colours: none without a cluster column, otherwise that column. */
  function MarkerColours(t: Table, clusterCol: Option<string>): (r: Result<Option<seq<string>>, HoverError>)
    requires WellFormed(t)
    ensures clusterCol.None? ==> r == Ok(None)
    ensures clusterCol.Some? ==> (r.Ok? <==> clusterCol.value in t.columns)
    ensures clusterCol.Some? && r.Err? ==> r.error == MissingColumn(clusterCol.value)
    ensures r.Ok? && clusterCol.Some? ==> r.value.Some? && |r.value.value| == |t.rows|
    ensures r.Ok? && clusterCol.Some? ==> forall i :: 0 <= i < |t.rows| ==> r.value.value[i] == t.rows[i][clusterCol.value]
  {
    match clusterCol
    case None => Ok(None)
    case Some(c) => if c in t.columns then Ok(Some(Column(t.rows, c))) else Err(MissingColumn(c))
  }

  /** The colour of a marker and its coordinates come from the same row:
      both are read by position. */
  lemma ColoursAlignWithPoints(t: Table, col0: string, col1: string, clusterCol: string, i: nat)
    requires WellFormed(t)
    requires Scatter(t, col0, col1).Ok? && MarkerColours(t, Some(clusterCol)).Ok?
    requires i < |t.rows|
    ensures var cols := MarkerColours(t, Some(clusterCol)).value.value;
            var xy := Scatter(t, col0, col1).value;
            |cols| == |xy.0| == |xy.1| &&
            cols[i] == t.rows[i][clusterCol] && xy.0[i] == t.rows[i][col0] && xy.1[i] == t.rows[i][col1]
  {
  }

  /** The tooltip's text line for a display column and its value. */
  function Line(col: string, value: string): (r: Element)
  {
    P(col + ": " + value)
  }

  /** The `display_data` loop: the row's value of each display column, in
      order; the first column the row lacks raises KeyError. */
  method CollectDisplayData(row: map<string, string>, columns: seq<string>) returns (r: Result<seq<string>, HoverError>)
    ensures r.Ok? <==> forall c :: c in columns ==> c in row
    ensures r.Ok? ==> |r.value| == |columns| && forall i :: 0 <= i < |columns| ==> r.value[i] == row[columns[i]]
    ensures r.Err? ==> exists k :: 0 <= k < |columns| && r.error == MissingColumn(columns[k]) &&
                        columns[k] !in row && forall j :: 0 <= j < k ==> columns[j] in row
  {
    var displayData: seq<string> := [];
    var i := 0;
    while i < |columns|
      invariant 0 <= i <= |columns|
      invariant forall j :: 0 <= j < i ==> columns[j] in row
      invariant |displayData| == i
      invariant forall j :: 0 <= j < i ==> displayData[j] == row[columns[j]]
    {
      var col := columns[i];
      if col !in row {
        return Err(MissingColumn(col));
      }
      displayData := displayData + [row[col]];
      i := i + 1;
    }
    return Ok(displayData);
  }

  /** `display_hover(hoverData)`, with `hoverData` either absent or its list
      of points. */
  method DisplayHover(t: Table, cfg: Config, hoverData: Option<seq<HoverPoint>>) returns (r: Result<Tooltip, HoverError>)
    requires WellFormed(t)
    ensures hoverData.None? ==> r == Ok(Hidden)
    ensures hoverData == Some([]) ==> r == Err(NoPoints)
    ensures hoverData.Some? && hoverData.value != [] ==>
      var p := hoverData.value[0];
      var n := p.pointNumber;
      (n >= |t.rows| ==> r == Err(RowOutOfRange(n))) &&
      (n < |t.rows| && cfg.urlCol !in t.columns ==> r == Err(MissingColumn(cfg.urlCol))) &&
      (n < |t.rows| && cfg.urlCol in t.columns && r.Err? ==> r.error.MissingColumn?) &&
      (r.Ok? <==> n < |t.rows| && cfg.urlCol in t.columns && forall c :: c in cfg.displayColumns ==> c in t.columns)
    ensures r.Err? && r.error.MissingColumn? ==>
      (r.error.col !in t.columns &&
       (r.error.col == cfg.urlCol ||
        exists k :: 0 <= k < |cfg.displayColumns| && r.error.col == cfg.displayColumns[k] &&
                    forall j :: 0 <= j < k ==> cfg.displayColumns[j] in t.columns))
    ensures r.Ok? && hoverData.Some? ==>
      var p := hoverData.value[0];
      var row := t.rows[p.pointNumber];
      r.value.Show? &&
      r.value.bbox == p.bbox &&
      (r.value.direction == Bottom <==> p.y > DirectionThreshold) &&
      |r.value.children| == 1 + |cfg.displayColumns| &&
      r.value.children[0] == Img(row[cfg.urlCol], Text.PixelLength(cfg.widthPx), Text.PixelLength(cfg.heightPx)) &&
      forall i :: 0 <= i < |cfg.displayColumns| ==>
        r.value.children[1 + i] == Line(cfg.displayColumns[i], row[cfg.displayColumns[i]])
  {
    if hoverData.None? {
      return Ok(Hidden);
    }
    var points := hoverData.value;
    if |points| == 0 {
      return Err(NoPoints);
    }
    var hover := points[0];
    var bbox := hover.bbox;
    var direction := if hover.y > DirectionThreshold then Bottom else Top;
    if hover.pointNumber >= |t.rows| {
      return Err(RowOutOfRange(hover.pointNumber));
    }
    var row := t.rows[hover.pointNumber];
    if cfg.urlCol !in row {
      return Err(MissingColumn(cfg.urlCol));
    }
    var url := row[cfg.urlCol];
    var displayData := CollectDisplayData(row, cfg.displayColumns);
    if displayData.Err? {
      return Err(displayData.error);
    }
    var values := displayData.value;
    var cols := cfg.displayColumns;
    var lines := seq(|cols|, i requires 0 <= i < |cols| => Line(cols[i], values[i]));
    var children := [Img(url, Text.PixelLength(cfg.widthPx), Text.PixelLength(cfg.heightPx))] + lines;
    return Ok(Show(bbox, children, direction));
  }

  /** The boundary case of the direction rule: a point exactly at 1.5 opens
      the tooltip upwards. */
  method DirectionAtThreshold(t: Table, cfg: Config, bbox: BBox, n: nat) returns (r: Result<Tooltip, HoverError>)
    requires WellFormed(t)
    requires n < |t.rows| && cfg.urlCol in t.columns
    requires forall c :: c in cfg.displayColumns ==> c in t.columns
    ensures r.Ok? && r.value.Show? && r.value.direction == Top
  {
    r := DisplayHover(t, cfg, Some([HoverPoint(bbox, 1.5, n)]));
  }
}
