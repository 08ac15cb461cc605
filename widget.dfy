/** The page of the slope-stability widget: the data set once it has loaded,
    and the display fields that the form handlers rewrite. */
module Widget {
  import opened Wrappers
  import opened Text
  import opened JsNumbers
  import opened JsValues
  import opened Tables
  import opened Format
  import opened Resolver
  import opened Readback
  import opened Rounding

  /** The values of the four select fields: zone, depth, angle, water level. */
  datatype Selection = Selection(zone: string, depth: string, theta: string, level: string)

  /** checkInputs: every field holds a non-empty (truthy) value. */
  predicate Complete(sel: Selection) {
    sel.zone != "" && sel.depth != "" && sel.theta != "" && sel.level != ""
  }

  /** The gate holds exactly when all four field values are truthy, as the
      `&&` chain of checkInputs tests them. */
  lemma CompleteMeansTruthy(sel: Selection)
    ensures Complete(sel) <==>
      Truthy(Str(sel.zone)) && Truthy(Str(sel.depth)) && Truthy(Str(sel.theta)) && Truthy(Str(sel.level))
  {
  }

  /** The image container: the prompt to fill in all four fields, emptied, or
      an image with its source path. */
  datatype ImageArea = Prompt | Blank | Picture(src: string)

  /** The ten cells of one soil-parameter row. */
  datatype ParamCells = ParamCells(gamma: string, su: string, c: string, phi: string, nu: string,
                                   e: string, voidRatio: string, ko: string, kx: string, ky: string)

  /** The three rows of the parameter table. */
  datatype Panel = SoftClay | StiffClay | Sand

  /** The cells of a row with no layer: formatPower("-") is "-" as well
      (Format.FormatPowerFallbacks), so every cell shows "-". */
  const DashCells := ParamCells("-", "-", "-", "-", "-", "-", "-", "-", "-", "-")

  /** fillParams: each value's text, the permeabilities through formatPower;
      "-" in every cell when there is no layer. */
  function Cells(layer: Option<SoilLayer>): ParamCells {
    match layer
    case None => DashCells
    case Some(l) =>
      ParamCells(NumberToString(l.gamma), NumberToString(l.su), NumberToString(l.c), NumberToString(l.phi),
                 NumberToString(l.nu), NumberToString(l.e), NumberToString(l.voidRatio), NumberToString(l.ko),
                 FormatPower(Num(l.kx)), FormatPower(Num(l.ky)))
  }

  function Layer(t: Option<ZoneSoil>, panel: Panel): Option<SoilLayer> {
    match t
    case None => None
    case Some(z) =>
      match panel
      case SoftClay => Some(z.soft)
      case StiffClay => Some(z.stiff)
      case Sand => Some(z.sand)
  }

  /** The three rows of the table with the row of `panel` replaced. */
  function Put(rows: (ParamCells, ParamCells, ParamCells), panel: Panel, cells: ParamCells)
    : (ParamCells, ParamCells, ParamCells)
  {
    match panel
    case SoftClay => (cells, rows.1, rows.2)
    case StiffClay => (rows.0, cells, rows.2)
    case Sand => (rows.0, rows.1, cells)
  }

  /** The zone header: "Zone " and the zone, or "ZONE" for an empty zone. */
  function ZoneHeader(zone: string): string {
    if zone != "" then "Zone " + zone else "ZONE"
  }

  /** The image file name: group, case, angle and depth, as the template
      literal writes them (`undefined` for an unknown zone or label). */
  function ImageFileName(prefix: string, water: string, theta: string, depth: string): string {
    prefix + "_" + water + "_" + theta + "_" + depth + "m.png"
  }

  /** The image path showImage builds from a complete selection. */
  function ImagePath(sel: Selection): string {
    var prefix := ToJsString(GroupValue(ZoneGroup(sel.zone)));
    var water := ToJsString(CaseValue(WaterCase(sel.level)));
    "PTT_PICTURE/" + prefix + "/" + prefix + "_" + water + "_ADDEDFailureline" + "/"
      + ImageFileName(prefix, water, sel.theta, sel.depth)
  }

  /** What computeFS does to the two result boxes: nothing (no data yet, or
      the search threw), or writes an F.S. text and a displacement text. */
  datatype Outcome = Unchanged | Aborted | Shown(fs: string, disp: string)

  /** The F.S. with three decimals; the displacement with one decimal and
      " m", or "0.0 m" when it is falsy. */
  function RowReadout(row: Row): (r: Outcome)
    ensures r.Shown?
    ensures r.fs == FormatFS(row.fs, 3)
    ensures !Truthy(row.x) ==> r.disp == "0.0 m"
    ensures Truthy(row.x) ==> r.disp == FormatFS(row.x, 1) + " m" && EndsWith(r.disp, " m")
  {
    var disp := if Truthy(row.x) then FormatFS(row.x, 1) + " m" else "0.0 m";
    assert EndsWith(disp, " m") by {
      assert disp[|disp| - 2..] == " m";
    }
    Shown(FormatFS(row.fs, 3), disp)
  }

  /** computeFS as a function of the data and the selection. */
  function ComputeOutcome(data: Option<seq<Row>>, sel: Selection): Outcome {
    match data
    case None => Unchanged
    case Some(rows) =>
      match Find(rows, QueryFor(sel.zone, sel.depth, sel.theta, sel.level))
      case Threw(_) => Aborted
      case NotFound => Shown("0.000", "0.0 m")
      case Found(i) => RowReadout(rows[i])
  }

  /** The page state: FS_DATA and the display fields. */
  class Page {
    var data: Option<seq<Row>>
    var fsBox: string
    var dispBox: string
    var image: ImageArea
    var zoneHeader: string
    var soft: ParamCells
    var stiff: ParamCells
    var sand: ParamCells

    /** The display resetDisplay leaves: zero results, the prompt, dashes in
        every parameter cell and the plain header. */
    predicate IsReset()
      reads this
    {
      && fsBox == "0.000" && dispBox == "0.0 m" && image == Prompt && zoneHeader == "ZONE"
      && soft == Cells(None) && stiff == Cells(None) && sand == Cells(None)
    }

    /** The page after DOMContentLoaded: no data yet, display reset. */
    constructor ()
      ensures data.None? && IsReset()
    {
      data := None;
      new;
      ResetDisplay();
    }

    /** The fetch of the data set completed: FS_DATA is assigned, nothing else changes. */
    method Loaded(rows: seq<Row>)
      modifies this
      ensures data == Some(rows)
      ensures fsBox == old(fsBox) && dispBox == old(dispBox) && image == old(image)
      ensures zoneHeader == old(zoneHeader) && soft == old(soft) && stiff == old(stiff) && sand == old(sand)
    {
      data := Some(rows);
    }

    method ResetDisplay()
      modifies this
      ensures IsReset() && data == old(data)
    {
      fsBox := "0.000";
      dispBox := "0.0 m";
      image := Prompt;
      LoadZone("");
      zoneHeader := "ZONE";
    }

    /** fillParams for one row of the table, given the row's texts
        (`Cells` of the layer): that row shows them, the other two rows and
        every other field keep their value. */
    method FillParams(panel: Panel, cells: ParamCells)
      modifies this
      ensures (soft, stiff, sand) == Put(old((soft, stiff, sand)), panel, cells)
      ensures data == old(data) && fsBox == old(fsBox) && dispBox == old(dispBox)
      ensures image == old(image) && zoneHeader == old(zoneHeader)
    {
      if panel == SoftClay {
        soft := cells;
      } else if panel == StiffClay {
        stiff := cells;
      } else {
        sand := cells;
      }
    }

    /** loadZone: the three parameter rows of the zone's soil table entry, and
        the header. */
    method LoadZone(zone: string)
      modifies this
      ensures soft == Cells(Layer(SoilTable(zone), SoftClay))
      ensures stiff == Cells(Layer(SoilTable(zone), StiffClay))
      ensures sand == Cells(Layer(SoilTable(zone), Sand))
      ensures zoneHeader == ZoneHeader(zone)
      ensures data == old(data) && fsBox == old(fsBox) && dispBox == old(dispBox) && image == old(image)
    {
      var t := SoilTable(zone);
      FillParams(SoftClay, Cells(Layer(t, SoftClay)));
      FillParams(StiffClay, Cells(Layer(t, StiffClay)));
      FillParams(Sand, Cells(Layer(t, Sand)));
      zoneHeader := ZoneHeader(zone);
    }

    /** computeFS: returns early without data; otherwise searches the rows and
        writes the two result boxes, or throws (threw) when the search does. */
    method ComputeFS(sel: Selection) returns (threw: bool)
      modifies this
      ensures threw <==> ComputeOutcome(old(data), sel).Aborted?
      ensures ComputeOutcome(old(data), sel).Shown? ==>
                fsBox == ComputeOutcome(old(data), sel).fs && dispBox == ComputeOutcome(old(data), sel).disp
      ensures !ComputeOutcome(old(data), sel).Shown? ==> fsBox == old(fsBox) && dispBox == old(dispBox)
      ensures data == old(data) && image == old(image) && zoneHeader == old(zoneHeader)
      ensures soft == old(soft) && stiff == old(stiff) && sand == old(sand)
    {
      threw := false;
      if data.None? {
        return;
      }
      var rows := data.value;
      var q := QueryFor(sel.zone, sel.depth, sel.theta, sel.level);
      var found := Find(rows, q);
      if found.Threw? {
        threw := true;
      } else if found.NotFound? {
        fsBox := "0.000";
        dispBox := "0.0 m";
      } else {
        var row := rows[found.index];
        fsBox := FormatFS(row.fs, 3);
        dispBox := if Truthy(row.x) then FormatFS(row.x, 1) + " m" else "0.0 m";
      }
    }

    /** showImage: empties the container for an incomplete selection, and
        otherwise shows the image at the path built from the selection. */
    method ShowImage(sel: Selection)
      modifies this
      ensures image == if Complete(sel) then Picture(ImagePath(sel)) else Blank
      ensures data == old(data) && fsBox == old(fsBox) && dispBox == old(dispBox)
      ensures zoneHeader == old(zoneHeader) && soft == old(soft) && stiff == old(stiff) && sand == old(sand)
    {
      if !Complete(sel) {
        image := Blank;
        return;
      }
      image := Picture(ImagePath(sel));
    }

    /** handleInputChange: an incomplete selection resets the display; a
        complete one loads the zone's parameters, computes the result and shows
        the image, except that a search that throws stops it before the image
        (threw). */
    method HandleInputChange(sel: Selection) returns (threw: bool)
      modifies this
      ensures data == old(data)
      ensures !Complete(sel) ==> IsReset() && !threw
      ensures Complete(sel) ==>
        && threw == ComputeOutcome(old(data), sel).Aborted?
        && zoneHeader == ZoneHeader(sel.zone)
        && soft == Cells(Layer(SoilTable(sel.zone), SoftClay))
        && stiff == Cells(Layer(SoilTable(sel.zone), StiffClay))
        && sand == Cells(Layer(SoilTable(sel.zone), Sand))
        && (ComputeOutcome(old(data), sel).Shown? ==>
              fsBox == ComputeOutcome(old(data), sel).fs && dispBox == ComputeOutcome(old(data), sel).disp)
        && (!ComputeOutcome(old(data), sel).Shown? ==> fsBox == old(fsBox) && dispBox == old(dispBox))
        && image == (if threw then old(image) else Picture(ImagePath(sel)))
    {
      threw := false;
      if Complete(sel) {
        LoadZone(sel.zone);
        threw := ComputeFS(sel);
        if !threw {
          ShowImage(sel);
        }
      } else {
        ResetDisplay();
      }
    }
  }

  // ---------------------------------------------------------------------------
  // Properties of the page
  // ---------------------------------------------------------------------------

  /** Before the data set has loaded, computing changes nothing. */
  lemma NoDataNoChange(sel: Selection)
    ensures ComputeOutcome(None, sel) == Unchanged
  {
  }

  /** With the data loaded but no matching row, the result boxes show
      "0.000" and "0.0 m". */
  lemma NoMatchShowsZero(rows: seq<Row>, sel: Selection)
    requires Find(rows, QueryFor(sel.zone, sel.depth, sel.theta, sel.level)).NotFound?
    ensures ComputeOutcome(Some(rows), sel) == Shown("0.000", "0.0 m")
  {
  }

  /** With no row whose group, depth, case and angle all match, and no row on
      which the search throws, the result is the zero readout. */
  lemma NoCandidateShowsZero(rows: seq<Row>, sel: Selection)
    requires var q := QueryFor(sel.zone, sel.depth, sel.theta, sel.level);
      forall j :: 0 <= j < |rows| ==> RowTest(rows[j], q) == Some(false)
    ensures ComputeOutcome(Some(rows), sel) == Shown("0.000", "0.0 m")
  {
  }

  /** The first matching row decides what is shown: a later row with the same
      key never does. */
  lemma FirstMatchShown(rows: seq<Row>, sel: Selection, i: nat)
    requires i < |rows|
    requires var q := QueryFor(sel.zone, sel.depth, sel.theta, sel.level);
      RowTest(rows[i], q) == Some(true) && Rejected(rows, q, 0, i)
    ensures ComputeOutcome(Some(rows), sel) == RowReadout(rows[i])
  {
    var q := QueryFor(sel.zone, sel.depth, sel.theta, sel.level);
    FoundAt(rows, q, i);
  }

  /** A matched row with a non-zero numeric F.S. shows it rounded to three
      decimals, and a non-zero numeric displacement rounded to one decimal
      followed by " m". */
  lemma NumericReadout(row: Row, fs: Dec, x: Dec)
    requires row.fs == Num(fs) && fs.coef != 0
    requires row.x == Num(x) && x.coef != 0
    ensures RowReadout(row) == Shown(ToFixed(fs, 3), ToFixed(x, 1) + " m")
  {
    FormatFSIsToFixed(fs, 3);
    FormatFSIsToFixed(x, 1);
  }

  /** A matched row whose F.S. and displacement are texts that parseFloat
      reads (such as "1.5" or "0.05") shows them rounded to three and to one
      decimal, the displacement followed by " m"; the texts shown read back
      as the rounded values. */
  lemma TextReadout(row: Row, fs: string, x: string, v: Dec, w: Dec)
    requires row.fs == Str(fs) && fs != "" && fs != "N/A" && ParseFloat(fs) == Some(v)
    requires row.x == Str(x) && x != "" && x != "N/A" && ParseFloat(x) == Some(w)
    ensures RowReadout(row) == Shown(ToFixed(v, 3), ToFixed(w, 1) + " m")
    ensures ParseFloat(RowReadout(row).fs) == Some(Rounded(v, 3))
  {
    FormatFSOfText(fs, v, 3);
    FormatFSOfText(x, w, 1);
  }

  /** Each value cell of a layer's row reads back, through Number() and
      parseFloat alike, as the value itself. */
  lemma CellsReadBack(l: SoilLayer)
    ensures var r := Cells(Some(l));
      && StringToNumber(r.gamma) == Some(Canonical(l.gamma)) && StringToNumber(r.su) == Some(Canonical(l.su))
      && StringToNumber(r.c) == Some(Canonical(l.c)) && StringToNumber(r.phi) == Some(Canonical(l.phi))
      && StringToNumber(r.nu) == Some(Canonical(l.nu)) && StringToNumber(r.e) == Some(Canonical(l.e))
      && StringToNumber(r.voidRatio) == Some(Canonical(l.voidRatio))
      && StringToNumber(r.ko) == Some(Canonical(l.ko))
  {
    var r := Cells(Some(l));
    assert StringToNumber(r.gamma) == Some(Canonical(l.gamma)) by { NumberTextReadsBack(l.gamma); }
    assert StringToNumber(r.su) == Some(Canonical(l.su)) by { NumberTextReadsBack(l.su); }
    assert StringToNumber(r.c) == Some(Canonical(l.c)) by { NumberTextReadsBack(l.c); }
    assert StringToNumber(r.phi) == Some(Canonical(l.phi)) by { NumberTextReadsBack(l.phi); }
    assert StringToNumber(r.nu) == Some(Canonical(l.nu)) by { NumberTextReadsBack(l.nu); }
    assert StringToNumber(r.e) == Some(Canonical(l.e)) by { NumberTextReadsBack(l.e); }
    assert StringToNumber(r.voidRatio) == Some(Canonical(l.voidRatio)) by { NumberTextReadsBack(l.voidRatio); }
    assert StringToNumber(r.ko) == Some(Canonical(l.ko)) by { NumberTextReadsBack(l.ko); }
  }

  /** The permeability cells of a layer's row are the toExponential(2)
      mantissa, " \U{D7} 10" and the exponent in superscript. */
  lemma PermeabilityCells(l: SoilLayer)
    ensures var r := Cells(Some(l));
      && r.kx == MantissaText(ToSci(l.kx)) + " \U{D7} 10" + Superscript(IntToString(ToSci(l.kx).exponent))
      && r.ky == MantissaText(ToSci(l.ky)) + " \U{D7} 10" + Superscript(IntToString(ToSci(l.ky).exponent))
  {
    FormatPowerOfNumber(Num(l.kx), l.kx);
    FormatPowerOfNumber(Num(l.ky), l.ky);
  }

  /** A zone outside the soil table shows "-" in every parameter cell. */
  lemma UnknownZoneDashes(zone: string, panel: Panel)
    requires ZoneGroup(zone).None?
    ensures Cells(Layer(SoilTable(zone), panel)) == ParamCells("-", "-", "-", "-", "-", "-", "-", "-", "-", "-")
  {
  }

  // ---------------------------------------------------------------------------
  // A worked example
  // ---------------------------------------------------------------------------

  /** A data set of one row: group G1, depth 5, case WET, angle "15°",
      F.S. 1.234 and displacement 0.05. */
  const SampleRow := Row(Str("G1"), Num(Dec(5, 0)), Str("WET"), Str("15" + [DegreeSign]),
                         Num(Dec(1234, 3)), Num(Dec(5, 2)))

  /** Zone ABC, depth "5", angle "15" and the ground-surface water level find
      the row: F.S. "1.234" and displacement "0.1 m". */
  lemma SampleMatch()
    ensures ComputeOutcome(Some([SampleRow]), Selection("ABC", "5", "15", WaterLabel(Wet)))
         == Shown("1.234", "0.1 m")
  {
    SampleFound();
    SampleReadout();
  }

  lemma SampleFound()
    ensures ComputeOutcome(Some([SampleRow]), Selection("ABC", "5", "15", WaterLabel(Wet)))
         == RowReadout(SampleRow)
  {
    SampleTest("15");
    DigitAngle("15");
    FirstMatchShown([SampleRow], Selection("ABC", "5", "15", WaterLabel(Wet)), 0);
  }

  lemma SampleReadout()
    ensures RowReadout(SampleRow) == Shown("1.234", "0.1 m")
  {
    NumericReadout(SampleRow, Dec(1234, 3), Dec(5, 2));
    SampleFixed();
  }

  /** The same data set and angle "20" find nothing: "0.000" and "0.0 m". */
  lemma SampleMiss()
    ensures ComputeOutcome(Some([SampleRow]), Selection("ABC", "5", "20", WaterLabel(Wet)))
         == Shown("0.000", "0.0 m")
  {
    var q := QueryFor("ABC", "5", "20", WaterLabel(Wet));
    SampleTest("20");
    DigitAngle("20");
    assert Find([SampleRow], q) == NotFound;
  }

  /** The sample row agrees with zone ABC, depth "5" and the ground-surface
      level on group, depth and case, so its angle alone decides. */
  lemma SampleTest(theta: string)
    ensures RowTest(SampleRow, QueryFor("ABC", "5", theta, WaterLabel(Wet))) == Some(NormalizeDegText(theta) == "15")
  {
    SampleQuery(theta);
    SampleKeys(Query(Str("G1"), "5", Str("WET"), theta));
  }

  lemma SampleQuery(theta: string)
    ensures QueryFor("ABC", "5", theta, WaterLabel(Wet)) == Query(Str("G1"), "5", Str("WET"), theta)
  {
    WaterCaseInverse(Wet);
  }

  lemma SampleKeys(q: Query)
    requires q.prefix == Str("G1") && q.depth == "5" && q.caseType == Str("WET")
    ensures RowTest(SampleRow, q) == Some(NormalizeDegText(q.theta) == "15")
  {
    SampleDepth();
    SampleAngle();
    KeysMatch(SampleRow, q, "15");
  }

  lemma SampleDepth()
    ensures LooseEquals(SampleRow.depth, Str("5"))
  {
    DepthMatchesLoosely("5");
    assert DigitsValue("5") == 5;
  }

  lemma SampleAngle()
    ensures NormalizeDeg(SampleRow.degree) == Some("15")
  {
    DegreeForms([], "15", [], []);
    assert [] + "15" + [] + [DegreeSign] + [] == "15" + [DegreeSign];
  }

  /** An angle of plain digits, as the form offers it, normalises to itself. */
  lemma DigitAngle(t: string)
    requires t != [] && AllDigits(t)
    ensures NormalizeDegText(t) == t
  {
    NotSpaceDigit(t[0]);
    NotSpaceDigit(t[|t| - 1]);
    assert DegreeSign !in t by {
      forall i | 0 <= i < |t|
        ensures t[i] != DegreeSign
      {
        assert IsDigit(t[i]);
      }
    }
    DegreeForms([], t, [], []);
    assert [] + t + [] == t;
  }

  /** 1.234 with three decimals is "1.234"; 0.05 with one decimal rounds up
      to "0.1". */
  lemma SampleFixed()
    ensures ToFixed(Dec(1234, 3), 3) == "1.234"
    ensures ToFixed(Dec(5, 2), 1) == "0.1"
  {
    assert RoundTo(1234, 3, 3) == 1234 by {
      assert Pow10(0) == 1;
    }
    assert NatToString(1234) == "1234" by {
      assert NatToString(1) == "1";
      assert NatToString(12) == "12";
      assert NatToString(123) == "123";
    }
    assert PadLeft("1234", 4) == "1234";
    assert FixedLayout("1234", 3) == "1.234";
    assert RoundTo(5, 2, 1) == 1 by {
      assert Pow10(0) == 1 && Pow10(1) == 10;
      DivUnique(10, 10, 1, 0);
    }
    assert NatToString(1) == "1";
    assert PadLeft("1", 2) == "01" by {
      assert Zeros(1) == "0";
    }
    assert FixedLayout("1", 1) == "0.1";
  }
}
