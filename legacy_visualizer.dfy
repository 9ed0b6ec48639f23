/** The older `display_hover` inside `viz_umap_plot` in utils.py. It reads
    fixed name, pixel-size, url and cluster columns by label, and always shows
    the image, the name and the cluster. */
module LegacyVisualizer {
  import opened Outcomes
  import Visualizer

  /** The column names the older `viz_umap_plot` takes. */
  datatype Columns = Columns(name: string, xPx: string, yPx: string, url: string, cluster: string)

  /** KeyError for a missing column or a missing row label, IndexError for
      an empty `points` list. */
  datatype LegacyError = NoPoints | MissingColumn(col: string) | MissingLabel(n: nat)

  /** `data_df[col][n]`. The rows are labelled 0, 1, ... in order, as a
      freshly built DataFrame is, so the label `n` is the `n`-th row. */
  function Cell(t: Visualizer.Table, col: string, n: nat): (r: Result<string, LegacyError>)
    requires Visualizer.WellFormed(t)
  {
    if col !in t.columns then Err(MissingColumn(col))
    else if n >= |t.rows| then Err(MissingLabel(n))
    else Ok(t.rows[n][col])
  }

  /** `display_hover(hoverData)`. Without hover data the tooltip is hidden.
      Otherwise it is shown exactly when the first point's label is a row and
      all five columns exist; it then holds the first point's box, opens
      downwards exactly when `y > 1.5`, and has exactly three children: the
      image, sized with its width from the y_px column and its height from the
      x_px column, the name, and the cluster line. The cells are read in the
      order x_px, y_px, name, url, cluster, and the first failing read raises:
      the x_px column, then the row label, then the remaining columns. */
  function DisplayHover(t: Visualizer.Table, cols: Columns, hoverData: Option<seq<Visualizer.HoverPoint>>): (r: Result<Visualizer.Tooltip, LegacyError>)
    requires Visualizer.WellFormed(t)
    ensures hoverData.None? ==> r == Ok(Visualizer.Hidden)
    ensures hoverData == Some([]) ==> r == Err(NoPoints)
    ensures hoverData.Some? && hoverData.value != [] ==>
      var n := hoverData.value[0].pointNumber;
      (r.Ok? <==> n < |t.rows| && {cols.xPx, cols.yPx, cols.name, cols.url, cols.cluster} <= t.columns) &&
      (cols.xPx !in t.columns ==> r == Err(MissingColumn(cols.xPx))) &&
      (cols.xPx in t.columns && n >= |t.rows| ==> r == Err(MissingLabel(n))) &&
      (r.Err? && n < |t.rows| ==> r.error.MissingColumn? && r.error.col !in t.columns)
    ensures r.Ok? && hoverData.Some? ==>
      var p := hoverData.value[0];
      var row := t.rows[p.pointNumber];
      r.value.Show? && r.value.bbox == p.bbox &&
      (r.value.direction == Visualizer.Bottom <==> p.y > 1.5) &&
      |r.value.children| == 3 &&
      r.value.children[0] == Visualizer.Img(row[cols.url], row[cols.yPx] + "px", row[cols.xPx] + "px") &&
      r.value.children[1] == Visualizer.P(row[cols.name]) &&
      r.value.children[2] == Visualizer.Line("Cluster", row[cols.cluster])
  {
    match hoverData
    case None => Ok(Visualizer.Hidden)
    case Some(points) =>
      if points == [] then Err(NoPoints)
      else
        var p := points[0];
        var direction := if p.y > Visualizer.DirectionThreshold then Visualizer.Bottom else Visualizer.Top;
        var n := p.pointNumber;
        match Cell(t, cols.xPx, n)
        case Err(e) => Err(e)
        case Ok(xPx) =>
          match Cell(t, cols.yPx, n)
          case Err(e) => Err(e)
          case Ok(yPx) =>
            match Cell(t, cols.name, n)
            case Err(e) => Err(e)
            case Ok(name) =>
              match Cell(t, cols.url, n)
              case Err(e) => Err(e)
              case Ok(url) =>
                match Cell(t, cols.cluster, n)
                case Err(e) => Err(e)
                case Ok(cluster) =>
                  Ok(Visualizer.Show(p.bbox,
                    [Visualizer.Img(url, yPx + "px", xPx + "px"), Visualizer.P(name), Visualizer.P("Cluster: " + cluster)],
                    direction))
  }
}
