/** The image catalogue builder: it walks the picture folders, reads the
    group, load case, angle and depth back out of each image's file name and
    collects one record per image. */
module Convert {
  import opened Wrappers
  import opened Text
  import opened JsNumbers
  import opened Tables
  import Widget

  // ---------------------------------------------------------------------------
  // The file-name pattern ([A-Za-z0-9]+)_(DRY|RAPID|WET)_(\d+)_([0-9]+m)\.png
  // ---------------------------------------------------------------------------

  predicate IsAlnum(c: char) {
    'A' <= c <= 'Z' || 'a' <= c <= 'z' || '0' <= c <= '9'
  }

  predicate AllAlnum(s: string) {
    forall i :: 0 <= i < |s| ==> IsAlnum(s[i])
  }

  /** The longest run of letters and digits at the start of `s`. */
  function AlnumRun(s: string): (n: nat)
    ensures n <= |s|
    ensures forall i :: 0 <= i < n ==> IsAlnum(s[i])
    ensures n < |s| ==> !IsAlnum(s[n])
  {
    if s == [] || !IsAlnum(s[0]) then 0 else 1 + AlnumRun(s[1..])
  }

  lemma AlnumRunStops(a: string, b: string)
    requires AllAlnum(a)
    requires b == [] || !IsAlnum(b[0])
    ensures AlnumRun(a + b) == |a|
  {
    assert forall i :: 0 <= i < |a| ==> (a + b)[i] == a[i];
    assert b != [] ==> (a + b)[|a|] == b[0];
  }

  /** Python's str.startswith. */
  predicate StartsWith(s: string, prefix: string) {
    |prefix| <= |s| && s[..|prefix|] == prefix
  }

  /** The three load-case codes the pattern accepts. */
  predicate IsWater(w: string) {
    w == "DRY" || w == "RAPID" || w == "WET"
  }

  /** A depth group: one or more digits and "m". */
  predicate IsDepth(p: string) {
    2 <= |p| && p[|p| - 1] == 'm' && AllDigits(p[..|p| - 1])
  }

  /** The four groups of a match. */
  datatype Groups = Groups(zone: string, water: string, degree: string, depth: string)

  /** Groups that the pattern can produce. */
  predicate ValidGroups(g: Groups) {
    && g.zone != [] && AllAlnum(g.zone)
    && IsWater(g.water)
    && g.degree != [] && AllDigits(g.degree)
    && IsDepth(g.depth)
  }

  /** The text matched from the depth group on: the depth and ".png". */
  function DepthTail(p: string): string {
    p + ".png"
  }

  /** The text matched from the angle group on. */
  function DegreeTail(d: string, p: string): string {
    d + "_" + DepthTail(p)
  }

  /** The text matched from the load-case group on. */
  function WaterTail(w: string, d: string, p: string): string {
    w + "_" + DegreeTail(d, p)
  }

  /** The text the pattern matches for the groups `g`. */
  function Spelled(g: Groups): string {
    g.zone + "_" + WaterTail(g.water, g.degree, g.depth)
  }

  /** A separator `_` at n after a prefix, followed by a text starting with q. */
  lemma StartsWithJoin(s: string, n: nat, q: string)
    requires n < |s| && s[n] == '_' && StartsWith(s[n + 1..], q)
    ensures StartsWith(s, s[..n] + "_" + q)
  {
    var p := s[..n] + "_" + q;
    forall i | 0 <= i < |p|
      ensures s[i] == p[i]
    {
      if i > n {
        assert s[n + 1..][i - n - 1] == q[i - n - 1];
      }
    }
    assert s[..|p|] == p;
  }

  /** Cutting `a + "_" + t + rest` at the separator after `a`. */
  lemma SplitAfter(a: string, t: string, rest: string)
    ensures var s := a + "_" + t + rest;
      |a| < |s| && s[..|a|] == a && s[|a|] == '_' && s[|a| + 1..] == t + rest
  {
    var s := a + "_" + t + rest;
    assert s[..|a|] == a;
    assert s[|a| + 1..] == t + rest;
  }

  /** `[0-9]+m\.png` at the start of `s`: the depth group. */
  function MatchDepth(s: string): (r: Option<string>)
    ensures r.Some? ==> IsDepth(r.value) && StartsWith(s, DepthTail(r.value))
  {
    var n := DigitRun(s);
    if 0 < n && StartsWith(s[n..], "m.png") then
      var p := s[..n] + "m";
      assert p[..|p| - 1] == s[..n];
      assert StartsWith(s, p + ".png") by {
        assert s[..n + 5] == s[..n] + s[n..][..5];
        assert p + ".png" == s[..n] + "m.png";
      }
      Some(p)
    else None
  }

  /** `(\d+)_` and the depth group. */
  function MatchDegree(s: string): (r: Option<(string, string)>)
    ensures r.Some? ==> AngleDepth(r.value) && StartsWith(s, DegreeTail(r.value.0, r.value.1))
  {
    var n := DigitRun(s);
    if 0 < n < |s| && s[n] == '_' then
      match MatchDepth(s[n + 1..])
      case None => None
      case Some(p) =>
        StartsWithJoin(s, n, DepthTail(p));
        Some((s[..n], p))
    else None
  }

  /** An angle group of digits and a depth group. */
  predicate AngleDepth(dp: (string, string)) {
    dp.0 != [] && AllDigits(dp.0) && IsDepth(dp.1)
  }

  /** The load-case code at the start of `s`, trying DRY, RAPID and WET in turn. */
  function WaterPrefix(s: string): (r: Option<string>)
    ensures r.Some? ==> IsWater(r.value) && StartsWith(s, r.value)
  {
    if StartsWith(s, "DRY") then Some("DRY")
    else if StartsWith(s, "RAPID") then Some("RAPID")
    else if StartsWith(s, "WET") then Some("WET")
    else None
  }

  /** `(DRY|RAPID|WET)_` and the rest of the pattern. */
  function MatchWater(s: string): (r: Option<(string, string, string)>)
    ensures r.Some? ==> var (w, d, p) := r.value;
      IsWater(w) && AngleDepth((d, p)) && StartsWith(s, WaterTail(w, d, p))
  {
    match WaterPrefix(s)
    case None => None
    case Some(w) =>
      if |w| < |s| && s[|w|] == '_' then
        match MatchDegree(s[|w| + 1..])
        case None => None
        case Some((d, p)) =>
          StartsWithJoin(s, |w|, DegreeTail(d, p));
          Some((w, d, p))
      else None
  }

  /** re.match of the file-name pattern: anchored at the start of the name
      only, so anything may follow the matched text. */
  function MatchPattern(s: string): (r: Option<Groups>)
    ensures r.Some? ==> ValidGroups(r.value) && StartsWith(s, Spelled(r.value))
  {
    var n := AlnumRun(s);
    if 0 < n < |s| && s[n] == '_' then
      match MatchWater(s[n + 1..])
      case None => None
      case Some((w, d, p)) =>
        StartsWithJoin(s, n, WaterTail(w, d, p));
        Some(Groups(s[..n], w, d, p))
    else None
  }

  // ---------------------------------------------------------------------------
  // Completeness: every text the pattern describes is matched, whatever follows
  // ---------------------------------------------------------------------------

  lemma DepthSpelled(digits: string, rest: string)
    requires digits != [] && AllDigits(digits)
    ensures MatchDepth(DepthTail(digits + "m") + rest) == Some(digits + "m")
  {
    var s := DepthTail(digits + "m") + rest;
    assert s == digits + ("m.png" + rest);
    DigitRunStops(digits, "m.png" + rest);
    assert s[..|digits|] == digits;
    assert s[|digits|..][..5] == "m.png";
  }

  lemma DegreeSpelled(d: string, p: string, rest: string)
    requires AngleDepth((d, p))
    ensures MatchDegree(DegreeTail(d, p) + rest) == Some((d, p))
  {
    var s := DegreeTail(d, p) + rest;
    SplitAfter(d, DepthTail(p), rest);
    var digits := p[..|p| - 1];
    assert p == digits + "m";
    assert s[|d|..][0] == '_';
    DigitRunStops(d, s[|d|..]);
    assert d + s[|d|..] == s;
    DepthSpelled(digits, rest);
  }

  lemma WaterPrefixOf(w: string, t: string)
    requires IsWater(w)
    ensures WaterPrefix(w + t) == Some(w)
  {
    var s := w + t;
    assert s[..|w|] == w;
    if w == "RAPID" {
      assert s[..3] == "RAP";
    } else if w == "WET" {
      assert s[..3] == "WET";
      assert |s| < 5 || s[..5][..3] == "WET";
    }
  }

  lemma WaterSpelled(w: string, d: string, p: string, rest: string)
    requires IsWater(w) && AngleDepth((d, p))
    ensures MatchWater(WaterTail(w, d, p) + rest) == Some((w, d, p))
  {
    var s := WaterTail(w, d, p) + rest;
    SplitAfter(w, DegreeTail(d, p), rest);
    assert s == w + s[|w|..];
    WaterPrefixOf(w, s[|w|..]);
    DegreeSpelled(d, p, rest);
  }

  /** Every name that starts with the text of valid groups matches them. */
  lemma MatchSpelled(g: Groups, rest: string)
    requires ValidGroups(g)
    ensures MatchPattern(Spelled(g) + rest) == Some(g)
  {
    var s := Spelled(g) + rest;
    SplitAfter(g.zone, WaterTail(g.water, g.degree, g.depth), rest);
    assert s[|g.zone|..][0] == '_';
    AlnumRunStops(g.zone, s[|g.zone|..]);
    assert g.zone + s[|g.zone|..] == s;
    WaterSpelled(g.water, g.degree, g.depth, rest);
  }

  /** The matcher is exact: it accepts a name with groups `g` exactly when
      the name starts with the text of the valid groups `g`. */
  lemma MatchCharacterised(s: string, g: Groups)
    ensures MatchPattern(s) == Some(g) <==> ValidGroups(g) && StartsWith(s, Spelled(g))
  {
    if ValidGroups(g) && StartsWith(s, Spelled(g)) {
      var n := |Spelled(g)|;
      assert s == Spelled(g) + s[n..];
      MatchSpelled(g, s[n..]);
    }
  }

  // ---------------------------------------------------------------------------
  // Records
  // ---------------------------------------------------------------------------

  /** One catalogue entry. */
  datatype ImageRecord = ImageRecord(zone: string, water: string, degree: nat, depth: string, file: string)

  /** The folder all images live under. */
  const BasePath := "PTT_PICTURE"

  /** The path stored for an image: backslashes between the base, zone and
      sub-folder, a slash before the file. */
  function FilePath(zone: string, sub: string, name: string): (r: string)
    ensures EndsWith(r, "/" + name)
    ensures StartsWith(r, BasePath + "\\" + zone + "\\" + sub)
    ensures |r| == |BasePath + "\\" + zone + "\\" + sub| + 1 + |name|
  {
    var head := BasePath + "\\" + zone + "\\" + sub;
    var r := head + "/" + name;
    assert r[..|head|] == head;
    assert r[|r| - |"/" + name|..] == "/" + name;
    r
  }

  /** The record for the file `name` in `zone`/`sub`, if its name ends in
      ".png" and matches the pattern. */
  function RecordFor(zone: string, sub: string, name: string): (r: Option<ImageRecord>)
    ensures r.Some? <==> EndsWith(name, ".png") && MatchPattern(name).Some?
  {
    if EndsWith(name, ".png") then
      match MatchPattern(name)
      case None => None
      case Some(g) => Some(ImageRecord(g.zone, g.water, DigitsValue(g.degree), g.depth, FilePath(zone, sub, name)))
    else None
  }

  /** A directory listing: a file, or a folder with its own listing in
      directory order. */
  datatype Entry = File(name: string) | Dir(name: string, entries: seq<Entry>)

  function Option2Seq(r: Option<ImageRecord>): seq<ImageRecord> {
    match r
    case None => []
    case Some(x) => [x]
  }

  /** The records of the entries of one sub-folder, in listing order. Every
      entry is examined by name, folders included. */
  function NameRecords(zone: string, sub: string, names: seq<Entry>): seq<ImageRecord>
    decreases |names|
  {
    if names == [] then []
    else NameRecords(zone, sub, names[..|names| - 1]) + Option2Seq(RecordFor(zone, sub, names[|names| - 1].name))
  }

  /** The records of the sub-folders of one zone folder; files there are skipped. */
  function SubRecords(zone: string, subs: seq<Entry>): seq<ImageRecord>
    decreases |subs|
  {
    if subs == [] then []
    else
      var last := subs[|subs| - 1];
      SubRecords(zone, subs[..|subs| - 1]) + if last.Dir? then NameRecords(zone, last.name, last.entries) else []
  }

  /** The records of the whole picture folder; files at the top are skipped. */
  function ZoneRecords(zones: seq<Entry>): seq<ImageRecord>
    decreases |zones|
  {
    if zones == [] then []
    else
      var last := zones[|zones| - 1];
      ZoneRecords(zones[..|zones| - 1]) + if last.Dir? then SubRecords(last.name, last.entries) else []
  }

  /** The walk over the picture folder's listing: zone folders, their
      sub-folders and the names in each, appending one record per accepted
      name. */
  method Convert(listing: seq<Entry>) returns (result: seq<ImageRecord>)
    ensures result == ZoneRecords(listing)
  {
    result := [];
    for i := 0 to |listing|
      invariant result == ZoneRecords(listing[..i])
    {
      var zone := listing[i];
      if zone.Dir? {
        result := WalkZone(result, zone.name, zone.entries);
      }
      assert listing[..i + 1][..i] == listing[..i];
    }
    assert listing[..|listing|] == listing;
  }

  /** The loop over one zone folder: each sub-folder is walked, files are skipped. */
  method WalkZone(acc: seq<ImageRecord>, zone: string, subs: seq<Entry>) returns (result: seq<ImageRecord>)
    ensures result == acc + SubRecords(zone, subs)
  {
    result := acc;
    for j := 0 to |subs|
      invariant result == acc + SubRecords(zone, subs[..j])
    {
      var sub := subs[j];
      SubRecordsStep(acc, zone, subs, j);
      if sub.Dir? {
        result := WalkSubfolder(result, zone, sub.name, sub.entries);
      }
    }
    assert subs[..|subs|] == subs;
  }

  /** One more sub-folder adds its records after those of the earlier ones. */
  lemma SubRecordsStep(acc: seq<ImageRecord>, zone: string, subs: seq<Entry>, j: nat)
    requires j < |subs|
    ensures acc + SubRecords(zone, subs[..j + 1])
         == acc + SubRecords(zone, subs[..j]) + (if subs[j].Dir? then NameRecords(zone, subs[j].name, subs[j].entries) else [])
  {
    assert subs[..j + 1][..j] == subs[..j];
  }

  /** One more name adds its record, if any, after those of the earlier ones. */
  lemma NameRecordsStep(acc: seq<ImageRecord>, zone: string, sub: string, names: seq<Entry>, k: nat)
    requires k < |names|
    ensures acc + NameRecords(zone, sub, names[..k + 1])
         == acc + NameRecords(zone, sub, names[..k]) + Option2Seq(RecordFor(zone, sub, names[k].name))
  {
    assert names[..k + 1][..k] == names[..k];
  }

  /** The loop over the names of one sub-folder: a name ending in ".png" that
      matches the pattern appends its record. */
  method WalkSubfolder(acc: seq<ImageRecord>, zone: string, sub: string, names: seq<Entry>)
    returns (result: seq<ImageRecord>)
    ensures result == acc + NameRecords(zone, sub, names)
  {
    result := acc;
    for k := 0 to |names|
      invariant result == acc + NameRecords(zone, sub, names[..k])
    {
      var file := names[k].name;
      NameRecordsStep(acc, zone, sub, names, k);
      if EndsWith(file, ".png") {
        var m := MatchPattern(file);
        if m.Some? {
          var g := m.value;
          result := result + [ImageRecord(g.zone, g.water, DigitsValue(g.degree), g.depth,
                                          FilePath(zone, sub, file))];
        }
      }
    }
    assert names[..|names|] == names;
  }

  // ---------------------------------------------------------------------------
  // Properties of the catalogue
  // ---------------------------------------------------------------------------

  /** What every record satisfies: a non-empty alphanumeric zone, a valid
      case and depth, and a stored path under the base folder that ends in
      ".png". The degree's value is stated by PngOnly and
      ImageNameReadsBack. */
  predicate ValidRecord(r: ImageRecord) {
    && r.zone != [] && AllAlnum(r.zone)
    && IsWater(r.water)
    && IsDepth(r.depth)
    && StartsWith(r.file, BasePath + "\\")
    && EndsWith(r.file, ".png")
  }

  lemma RecordForValid(zone: string, sub: string, name: string)
    requires RecordFor(zone, sub, name).Some?
    ensures ValidRecord(RecordFor(zone, sub, name).value)
  {
    var r := RecordFor(zone, sub, name).value;
    var head := BasePath + "\\";
    assert StartsWith(r.file, head) by {
      var full := BasePath + "\\" + zone + "\\" + sub;
      assert StartsWith(r.file, full);
      assert full[..|head|] == head;
      assert r.file[..|head|] == full[..|head|];
    }
    assert EndsWith(r.file, ".png") by {
      assert EndsWith(r.file, "/" + name);
      assert EndsWith(name, ".png");
      assert r.file[|r.file| - 4..] == ("/" + name)[|"/" + name| - 4..];
      assert ("/" + name)[|"/" + name| - 4..] == name[|name| - 4..];
    }
  }

  lemma {:induction false} NameRecordsValid(zone: string, sub: string, names: seq<Entry>)
    ensures forall k :: 0 <= k < |NameRecords(zone, sub, names)| ==> ValidRecord(NameRecords(zone, sub, names)[k])
    decreases |names|
  {
    if names != [] {
      NameRecordsValid(zone, sub, names[..|names| - 1]);
      var r := RecordFor(zone, sub, names[|names| - 1].name);
      if r.Some? {
        RecordForValid(zone, sub, names[|names| - 1].name);
      }
    }
  }

  lemma {:induction false} SubRecordsValid(zone: string, subs: seq<Entry>)
    ensures forall k :: 0 <= k < |SubRecords(zone, subs)| ==> ValidRecord(SubRecords(zone, subs)[k])
    decreases |subs|
  {
    if subs != [] {
      SubRecordsValid(zone, subs[..|subs| - 1]);
      var last := subs[|subs| - 1];
      if last.Dir? {
        NameRecordsValid(zone, last.name, last.entries);
      }
    }
  }

  /** Every record of the catalogue is valid. */
  lemma {:induction false} CatalogueValid(zones: seq<Entry>)
    ensures forall k :: 0 <= k < |ZoneRecords(zones)| ==> ValidRecord(ZoneRecords(zones)[k])
    decreases |zones|
  {
    if zones != [] {
      CatalogueValid(zones[..|zones| - 1]);
      var last := zones[|zones| - 1];
      if last.Dir? {
        SubRecordsValid(last.name, last.entries);
      }
    }
  }

  /** A name that does not end in ".png" gives no record, whatever it
      matches; one that does gives the record of its groups. */
  lemma PngOnly(zone: string, sub: string, name: string, g: Groups, rest: string)
    ensures !EndsWith(name, ".png") ==> RecordFor(zone, sub, name).None?
    ensures ValidGroups(g) && name == Spelled(g) + rest && EndsWith(name, ".png") ==>
      RecordFor(zone, sub, name) == Some(ImageRecord(g.zone, g.water, DigitsValue(g.degree), g.depth,
                                                     FilePath(zone, sub, name)))
  {
    if ValidGroups(g) && name == Spelled(g) + rest {
      MatchSpelled(g, rest);
    }
  }

  /** The widget's image file name is the text the pattern spells for its
      four parts, with "m" closing the depth group. */
  lemma FileNameSpelled(prefix: string, water: string, theta: string, depth: string)
    ensures Widget.ImageFileName(prefix, water, theta, depth) == Spelled(Groups(prefix, water, theta, depth + "m"))
  {
    var t1 := DepthTail(depth + "m");
    assert t1 == depth + "m.png";
    var t2 := DegreeTail(theta, depth + "m");
    assert t2 == theta + "_" + depth + "m.png";
    var t3 := WaterTail(water, theta, depth + "m");
    assert t3 == water + "_" + theta + "_" + depth + "m.png";
  }

  /** Spelled text always ends in ".png". */
  lemma SpelledEndsWithPng(g: Groups)
    ensures EndsWith(Spelled(g), ".png")
  {
    var s := Spelled(g);
    var t := DepthTail(g.depth);
    assert s == g.zone + "_" + (g.water + "_" + (g.degree + "_" + t));
    assert s[|s| - 4..] == t[|t| - 4..];
  }

  /** The name spelled by valid groups gives the record of those groups. */
  lemma RecordOfSpelled(zone: string, sub: string, g: Groups, name: string)
    requires ValidGroups(g) && name == Spelled(g)
    ensures RecordFor(zone, sub, name)
         == Some(ImageRecord(g.zone, g.water, DigitsValue(g.degree), g.depth, FilePath(zone, sub, name)))
  {
    assert name + "" == name;
    MatchSpelled(g, "");
    SpelledEndsWithPng(g);
  }

  /** Round trip with the widget's image name: a name built from a group, a
      load case, an angle of digits and a depth of digits is read back as that
      group and case, the angle's value and the depth with its "m". */
  lemma ImageNameReadsBack(zone: string, sub: string, g: Group, c: Case, theta: string, depth: string)
    requires theta != [] && AllDigits(theta)
    requires depth != [] && AllDigits(depth)
    ensures var name := Widget.ImageFileName(g.Code(), c.Code(), theta, depth);
      RecordFor(zone, sub, name)
        == Some(ImageRecord(g.Code(), c.Code(), DigitsValue(theta), depth + "m", FilePath(zone, sub, name)))
  {
    var name := Widget.ImageFileName(g.Code(), c.Code(), theta, depth);
    var groups := Groups(g.Code(), c.Code(), theta, depth + "m");
    assert (depth + "m")[..|depth + "m"| - 1] == depth;
    assert AllAlnum(g.Code()) && IsWater(c.Code());
    assert ValidGroups(groups);
    FileNameSpelled(g.Code(), c.Code(), theta, depth);
    RecordOfSpelled(zone, sub, groups, name);
  }
}
