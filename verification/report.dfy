/**
 * The PDF report: the result fields with their defaults, the overlay
 * picture added from its `data:` URL with the cursor bookkeeping of the
 * page, and a report generator that yields no path when anything fails.
 *
 * The document is kept as the list of what was put on the page and the
 * vertical cursor; fonts, layout engine, page breaks and files are not
 * modelled.  What the imaging library and the file system do with the
 * bytes enters through an `Environment`.
 */
module Report {
  import opened Wrappers
  import opened Base64
  import opened Text
  import opened Json
  import Visualization

  datatype Item =
    | Line(text: string)                       // a text cell of one line
    | Field(caption: string, value: Value, suffix: string)  // a text cell: caption, a result field, then the suffix
    | Picture(png: seq<Byte>, x: real, y: real, width: real)

  /** The document so far: the vertical cursor and the items placed in order. */
  datatype Pdf = Pdf(y: real, items: seq<Item>)

  /** Height of a one-line cell; a cell moves the cursor down by its height. */
  const CellHeight: real := 10.0

  /** Room left below the cursor for a placed picture. */
  const PictureRoom: real := 60.0

  /**
   * The outside world as the generator meets it: whether the imaging library
   * accepts some bytes (open and save to a temporary file), whether placing
   * the picture succeeds, whether removing the temporary file afterwards
   * succeeds, whether the reports directory is made and the report file
   * written, the date printed on the page and the time stamp in the file
   * name (the clock read twice, in two formats).
   */
  datatype Environment = Environment(
    opens: seq<Byte> -> bool,
    placed: bool,
    removed: bool,
    written: bool,
    date: string,
    stamp: string)

  function AddCell(pdf: Pdf, item: Item): (r: Pdf)
    ensures r.y == pdf.y + CellHeight && r.items == pdf.items + [item]
  {
    Pdf(pdf.y + CellHeight, pdf.items + [item])
  }

  /**
   * The Base64 text of an image value: after the first comma for a `data:`
   * URL, the whole string otherwise; a URL without a comma, or a value that
   * is not a string, has none.
   */
  function Payload(v: Value): (r: Option<string>)
    ensures v.Str? && StartsWith(v.s, "data:") ==> r == Segment(v.s, ',', 1)
    ensures v.Str? && !StartsWith(v.s, "data:") ==> r == Some(v.s)
    ensures !v.Str? ==> r.None?
  {
    match v
    case Str(s) => if StartsWith(s, "data:") then Segment(s, ',', 1) else Some(s)
    case _ => None
  }

  /** The bytes of an image value: its payload, Base64-decoded; None for a falsy value or an unreadable payload. */
  function ImageBytes(v: Value): (r: Option<seq<Byte>>)
    ensures !Truthy(v) ==> r.None?
    ensures Truthy(v) && Payload(v).None? ==> r.None?
    ensures Truthy(v) && Payload(v).Some? ==> r == Decode(Payload(v).value)
  {
    if !Truthy(v) then None
    else
      match Payload(v)
      case None => None
      case Some(text) => Decode(text)
  }

  /** What placing a picture gave: the document and the cursor handed back. */
  datatype Placement = Placement(pdf: Pdf, y: real)

  /**
   * `add_image_from_base64`.  A falsy value, an unreadable payload, or bytes
   * the imaging library refuses leave the document alone and hand back the
   * given position.  Otherwise the title cell is written; if placing the
   * picture then fails the title stays but the given position is still
   * handed back.  Once the picture is placed it stays; if removing the
   * temporary file then fails the given position is handed back, and on
   * success the cursor handed back is 60 below the line after the title.
   */
  function AddImageFromBase64(pdf: Pdf, v: Value, title: string, position: real, env: Environment): (r: Placement)
    ensures !Truthy(v) ==> r == Placement(pdf, position)
    ensures ImageBytes(v).None? || !env.opens(ImageBytes(v).value) ==> r == Placement(pdf, position)
    ensures ImageBytes(v).Some? && env.opens(ImageBytes(v).value) && !env.placed ==>
      r.y == position && r.pdf.y == pdf.y + CellHeight && r.pdf.items == pdf.items + [Line(title)]
    ensures ImageBytes(v).Some? && env.opens(ImageBytes(v).value) && env.placed ==>
      r.pdf.y == pdf.y + CellHeight &&
      r.pdf.items == pdf.items + [Line(title), Picture(ImageBytes(v).value, 10.0, pdf.y + CellHeight, 80.0)]
    ensures ImageBytes(v).Some? && env.opens(ImageBytes(v).value) && env.placed ==>
      r.y == if env.removed then pdf.y + CellHeight + PictureRoom else position
  {
    match ImageBytes(v)
    case None => Placement(pdf, position)
    case Some(bytes) =>
      if !env.opens(bytes) then Placement(pdf, position)
      else
        var titled := AddCell(pdf, Line(title));
        if !env.placed then Placement(titled, position)
        else
          var pictured := Pdf(titled.y, titled.items + [Picture(bytes, 10.0, titled.y, 80.0)]);
          if !env.removed then Placement(pictured, position)
          else Placement(pictured, titled.y + PictureRoom)
  }

  /** A `data:` URL made by the service yields exactly the bytes it wraps. */
  lemma WrappedImageBytes(png: seq<Byte>)
    ensures ImageBytes(Str(Visualization.ImageToBase64(png))) == Some(png)
  {
    var url := Visualization.ImageToBase64(png);
    Visualization.WrappedSplits(png);
    assert StartsWith(url, "data:") by {
      assert url[..|Visualization.Prefix|] == Visualization.Prefix;
      assert url[..5] == Visualization.Prefix[..5];
    }
    assert Payload(Str(url)) == Some(Encode(png));
    DecodeEncode(png);
  }

  /** Bare Base64 of some non-empty bytes is used whole and yields those bytes. */
  lemma BareImageBytes(png: seq<Byte>)
    requires |png| > 0
    ensures ImageBytes(Str(Encode(png))) == Some(png)
  {
    var bare := Encode(png);
    NotDataUrl(bare);
    assert Payload(Str(bare)) == Some(bare);
    EncodeNonEmpty(png);
    DecodeEncode(png);
  }

  lemma EncodeNonEmpty(png: seq<Byte>)
    requires |png| > 0
    ensures |Encode(png)| > 0
  {
    assert (|png| + 2) / 3 >= 1;
  }

  /** No Base64 text starts with `data:`, since ':' is outside its alphabet. */
  lemma NotDataUrl(text: string)
    requires forall k :: 0 <= k < |text| ==> EncodedChar(text[k])
    ensures !StartsWith(text, "data:")
  {
    assert !EncodedChar(':');
    if |text| >= 5 {
      assert EncodedChar(text[4]);
      assert text[..5][4] == text[4];
    }
  }

  /**
   * The overlay of a result packaged by the service is placed with exactly
   * the PNG bytes it was made from, and the cursor moves 60 below the line
   * after its title once the temporary file is gone.
   */
  lemma WrappedImagePlaced(pdf: Pdf, png: seq<Byte>, title: string, position: real, env: Environment)
    requires env.opens(png) && env.placed && env.removed
    ensures var r := AddImageFromBase64(pdf, Str(Visualization.ImageToBase64(png)), title, position, env);
      r.y == pdf.y + CellHeight + PictureRoom &&
      r.pdf.items == pdf.items + [Line(title), Picture(png, 10.0, pdf.y + CellHeight, 80.0)]
  {
    WrappedImageBytes(png);
  }

  /** `prediction_data.get(...)` with the report's defaults: 'N/A' and 0. */
  function Prediction(data: Dict): (v: Value)
    ensures "prediction" !in data ==> v == Str("N/A")
    ensures "prediction" in data ==> v == data["prediction"]
  {
    Get(data, "prediction", Str("N/A"))
  }

  function Confidence(data: Dict): (v: Value)
    ensures "confidence" !in data ==> v == Int(0)
    ensures "confidence" in data ==> v == data["confidence"]
  {
    Get(data, "confidence", Int(0))
  }

  /**
   * The page of `create_simple_report` from `top` (the upper margin) on:
   * heading, file name, date, result and confidence, then the overlay
   * section when the result carries a truthy overlay.
   */
  function ReportPage(data: Dict, filename: string, top: real, env: Environment): (pdf: Pdf)
    ensures |pdf.items| >= 5
    ensures pdf.items[..5] == [Line("Reporte Malaria"), Field("Archivo: ", Str(filename), ""),
                               Field("Fecha: ", Str(env.date), ""), Field("Resultado: ", Prediction(data), ""),
                               Field("Confianza: ", Confidence(data), "%")]
    ensures !Truthy(Get(data, "overlay", Null)) ==> |pdf.items| == 5
  {
    var heading := AddCell(Pdf(top, []), Line("Reporte Malaria"));
    var p1 := Pdf(heading.y + 10.0, heading.items);                       // ln(10)
    var p2 := AddCell(AddCell(p1, Field("Archivo: ", Str(filename), "")), Field("Fecha: ", Str(env.date), ""));
    var p3 := Pdf(p2.y + 5.0, p2.items);                                   // ln(5)
    var p4 := AddCell(AddCell(p3, Field("Resultado: ", Prediction(data), "")), Field("Confianza: ", Confidence(data), "%"));
    var p := Pdf(p4.y + 10.0, p4.items);                                   // ln(10)
    var overlay := Get(data, "overlay", Null);
    if Truthy(overlay) then
      var placed := AddImageFromBase64(p, overlay, "Imagen con Analisis:", p.y, env);
      assert placed.pdf.items[..|p.items|] == p.items;
      Pdf(placed.y + 10.0, placed.pdf.items)                                // set_y(current_y + 10)
    else p
  }

  /**
   * An overlay produced by `image_to_base64` whose picture the imaging library
   * accepts adds the section title and the picture, 80 wide at the left
   * margin, one line below the title, which sits 75 below the top margin.
   */
  lemma OverlayPlacedInReport(data: Dict, filename: string, top: real, env: Environment, png: seq<Byte>)
    requires "overlay" in data && data["overlay"] == Str(Visualization.ImageToBase64(png))
    requires env.opens(png) && env.placed
    ensures var pdf := ReportPage(data, filename, top, env);
      |pdf.items| == 7 &&
      pdf.items[5] == Line("Imagen con Analisis:") &&
      pdf.items[6] == Picture(png, 10.0, top + 85.0, 80.0)
  {
    var v := data["overlay"];
    assert Truthy(v);
    WrappedImageBytes(png);
  }

  /** Directory and name prefix of every report file. */
  const ReportPrefix := "reports\\reporte_"

  /** The path of the written report: the prefix, the time stamp, then `.pdf`. */
  function ReportPath(stamp: string): (p: string)
    ensures |p| == |ReportPrefix| + |stamp| + 4
    ensures p[..|ReportPrefix|] == ReportPrefix && p[|p| - 4..] == ".pdf"
    ensures p[|ReportPrefix|..|p| - 4] == stamp
  {
    ReportPrefix + stamp + ".pdf"
  }

  /** Distinct time stamps name distinct reports. */
  lemma ReportPathInjective(a: string, b: string)
    ensures ReportPath(a) == ReportPath(b) <==> a == b
  {
    if ReportPath(a) == ReportPath(b) {
      var p := ReportPath(a);
      assert a == p[|ReportPrefix|..|p| - 4];
    }
  }

  /** The cursor on a fresh page: the PDF library's default top margin of 1 cm. */
  const TopMargin: real := 10.0

  /** A written report: where it went and what is on its page. */
  datatype Saved = Saved(path: string, page: Pdf)

  /**
   * `generate_pdf`: the report written from a fresh page, or None when making
   * the directory or writing the file fails.  A failure inside the overlay
   * section is handled there and never reaches here.
   */
  function GeneratePdf(data: Dict, filename: string, env: Environment): (r: Option<Saved>)
    ensures r.Some? <==> env.written
    ensures r.Some? ==> r.value.path == ReportPath(env.stamp) && r.value.page == ReportPage(data, filename, TopMargin, env)
    ensures r.Some? ==> r.value.page.items[1] == Field("Archivo: ", Str(filename), "") &&
                        r.value.page.items[3] == Field("Resultado: ", Prediction(data), "")
  {
    if env.written then
      var page := ReportPage(data, filename, TopMargin, env);
      assert page.items[..5][1] == page.items[1] && page.items[..5][3] == page.items[3];
      Some(Saved(ReportPath(env.stamp), page))
    else None
  }
}
