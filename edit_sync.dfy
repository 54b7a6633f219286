/** The add-on's bookkeeping around bound diagrams: which images an edit makes
    stale (`onEdit`), how they are redrawn in two phases, and how a new bound
    diagram is inserted (`addBoundDiagram_`). The spreadsheet is an abstract
    surface: its images, the document cache and a trace of the writes. */
module EditSync {
  import opened Wrappers
  import opened Text
  import opened RangeGeometry
  import opened VennPartition
  import opened BindingCodec
  import VennTemplate

  /** The values of a range, row by row; an empty cell is the empty string. */
  type Grid = seq<seq<string>>

  /** Image content: the PNG rendering of the Venn diagram of `labels` and
      `names`, named after the alt text it is created for, or any other picture. */
  datatype Blob = VennPng(labels: map<string, string>, names: seq<string>, name: string) | Picture(id: nat)

  /** The SVG text a Venn picture is the rendering of (`vennSvg_`). */
  function SvgText(blob: Blob): string
    requires blob.VennPng?
  {
    VennTemplate.VennSvg(blob.labels, blob.names)
  }

  /** The SVG of a Venn picture holds, between its header and its closing tag,
      the body drawn from its labels and names in the default colours. */
  lemma SvgTextReadBack(blob: Blob)
    requires blob.VennPng?
    ensures VennTemplate.Between(SvgText(blob), VennTemplate.SvgHead, VennTemplate.SvgClose)
         == Some(VennTemplate.BodyOrUndefined(VennTemplate.VennBody(blob.labels, blob.names, VennTemplate.DefaultColors)))
  {
    VennTemplate.SvgReadBack(blob.labels, blob.names, VennTemplate.DefaultColors);
  }

  /** An over-grid image: its sheet, the cell it is anchored at, its alt text,
      its size and its content. */
  datatype Image = Image(sheetId: nat, column: nat, row: nat, alt: string, width: nat, height: nat, content: Blob)

  /** One entry of the index of bound diagrams (`database`). */
  datatype Entry = Entry(alt: string, sheetId: Option<nat>, extent: Extent)

  /** Why an edit or an insertion fails. */
  datatype Error =
    | MissingNotation        // a bound alt without a `venn` type or a notation
    | InvalidNotation        // `Invalid A1 notation`
    | RangeUnavailable       // the host cannot read the bound range
    | SetCountOutOfRange     // `Can only create Venn diagrams of 2 to 6 sets.`
    | UnknownDiagramType     // no drawing function for the requested type

  /** `row.slice(0, 2)`. */
  function FirstTwo(cells: seq<string>): (r: seq<string>)
    ensures |r| == if |cells| < 2 then |cells| else 2
    ensures forall k :: 0 <= k < |r| ==> r[k] == cells[k]
  {
    if |cells| <= 2 then cells else cells[..2]
  }

  predicate HasContent(cells: seq<string>)
  {
    exists k :: 0 <= k < |cells| && cells[k] != ""
  }

  /** Row `cells` of a range contributes the table row `x`. */
  predicate Contributes(cells: seq<string>, x: Row)
  {
    |cells| >= 2 && cells[0] == x.item && cells[1] == x.group && (x.item != "" || x.group != "")
  }

  /** Some row of the range contributes `x`. */
  predicate Yields(values: Grid, x: Row)
  {
    exists r :: 0 <= r < |values| && Contributes(values[r], x)
  }

  /** The table `generateVennImage_` hands to `vennLabelsNames_`: the first two
      cells of every row with some non-empty cell among them. A kept row with a
      single cell has no group; the host's ranges are rectangular, so then every
      group is missing, there is at most one group name, and the set-count guard
      rejects the range. */
  function VennTable(values: Grid): (r: Result<seq<Row>, Error>)
    ensures r.Err? ==> r.error == SetCountOutOfRange
  {
    if values == [] then Ok([])
    else
      var cells := FirstTwo(values[0]);
      var rest := VennTable(values[1..]);
      if !HasContent(cells) then rest
      else if |cells| < 2 then Err(SetCountOutOfRange)
      else if rest.Err? then rest
      else Ok([Row(cells[0], cells[1])] + rest.value)
  }

  /** The table holds exactly the rows some row of the range contributes. */
  lemma {:induction false} VennTableRows(values: Grid, x: Row)
    requires VennTable(values).Ok?
    ensures x in VennTable(values).value <==> Yields(values, x)
    decreases |values|
  {
    if values != [] {
      VennTableRows(values[1..], x);
      var cells := FirstTwo(values[0]);
      if exists r :: 1 <= r < |values| && Contributes(values[r], x) {
        var r :| 1 <= r < |values| && Contributes(values[r], x);
        assert Contributes(values[1..][r - 1], x);
      }
      if exists r :: 0 <= r < |values[1..]| && Contributes(values[1..][r], x) {
        var r :| 0 <= r < |values[1..]| && Contributes(values[1..][r], x);
        assert Contributes(values[r + 1], x);
      }
      if Contributes(values[0], x) {
        assert cells[0] == x.item && cells[1] == x.group;
        assert x.item != "" ==> cells[0] != "";
        assert x.group != "" ==> cells[1] != "";
      }
      if HasContent(cells) && |cells| >= 2 {
        var k :| 0 <= k < |cells| && cells[k] != "";
        assert Contributes(values[0], Row(cells[0], cells[1]));
      }
    }
  }

  /** The range is rejected before counting iff some row has content in its
      first cell but no second cell. */
  lemma {:induction false} VennTableFails(values: Grid)
    ensures VennTable(values).Err? <==> exists r :: 0 <= r < |values| && |values[r]| == 1 && values[r][0] != ""
    decreases |values|
  {
    if values != [] {
      VennTableFails(values[1..]);
      if exists r :: 1 <= r < |values| && |values[r]| == 1 && values[r][0] != "" {
        var r :| 1 <= r < |values| && |values[r]| == 1 && values[r][0] != "";
        assert values[1..][r - 1] == values[r];
      }
      if exists r :: 0 <= r < |values[1..]| && |values[1..][r]| == 1 && values[1..][r][0] != "" {
        var r :| 0 <= r < |values[1..]| && |values[1..][r]| == 1 && values[1..][r][0] != "";
        assert values[r + 1] == values[1..][r];
      }
      var cells := FirstTwo(values[0]);
      if |values[0]| == 1 && values[0][0] != "" {
        assert HasContent(cells);
      }
    }
  }

  /** `generateVennImage_`: the Venn diagram of the range, rendered and named
      `alt`, or the reason it cannot be drawn. */
  ghost function VennImage(values: Grid, alt: string): Result<Blob, Error>
  {
    match VennTable(values)
      case Err(e) => Err(e)
      case Ok(table) =>
        var names := SortedGroupNames(table);
        if |names| < 2 || |names| > 6 then Err(SetCountOutOfRange)
        else Ok(VennPng(VennLabels(table, "{number}"), names, alt))
  }

  /** A drawn image is named after its alt and holds a full diagram body: two
      elements per set and one label per region. */
  lemma VennImageDrawn(values: Grid, alt: string)
    requires VennImage(values, alt).Ok?
    ensures var table := VennTable(values).value;
      var names := SortedGroupNames(table);
      var labels := VennLabels(table, "{number}");
      var body := VennTemplate.VennBody(labels, names, VennTemplate.DefaultColors);
      2 <= |GroupSet(table)| <= 6 && VennImage(values, alt).value.name == alt
      && body.Some? && |body.value| == 2 * |names| + Binary.Pow2(|names|) - 1
      && SvgText(VennImage(values, alt).value) == VennTemplate.Document(VennTemplate.SvgHead, body)
  {
    NamesAreGroups(VennTable(values).value);
  }

  /** Two ranges whose kept rows are the same set draw the same image: row order
      and repeated rows do not matter. */
  lemma SameRowsSameImage(v1: Grid, v2: Grid, alt: string)
    requires VennTable(v1).Ok? && VennTable(v2).Ok?
    requires forall x :: Yields(v1, x) <==> Yields(v2, x)
    ensures VennImage(v1, alt) == VennImage(v2, alt)
  {
    var t1, t2 := VennTable(v1).value, VennTable(v2).value;
    forall x ensures x in Elems(t1) <==> x in Elems(t2) {
      VennTableRows(v1, x);
      VennTableRows(v2, x);
    }
    assert Elems(t1) == Elems(t2);
    RowOrderIrrelevant(t1, t2, "{number}");
  }

  /** The alts of the bound images, in the host's order
      (`getBoundOverGridImages_`). */
  function BoundAlts(images: seq<Image>): (r: seq<string>)
    ensures forall a :: a in r <==> IsBoundAlt(a) && exists i :: 0 <= i < |images| && images[i].alt == a
  {
    if images == [] then []
    else
      var n := |images| - 1;
      var prev := BoundAlts(images[..n]);
      assert forall i :: 0 <= i < n ==> images[..n][i] == images[i];
      if IsBoundAlt(images[n].alt) then prev + [images[n].alt] else prev
  }

  /** The index entry of one bound alt (`a1NotationToRangeExtent_` applied to
      the decoded notation). A non-`venn` alt decodes to the empty record, whose
      missing notation breaks the rebuild. */
  function IndexEntry(alt: string): Result<Entry, Error>
  {
    match ParseAlt(alt)
      case None => Err(MissingNotation)
      case Some(b) =>
        if b.a1Notation.None? then Err(MissingNotation)
        else match ParseA1(b.a1Notation.value)
          case Err(_) => Err(InvalidNotation)
          case Ok(e) => Ok(Entry(alt, b.sheetId, e))
  }

  /** All the values, or the first error (`map` over a sequence whose callback
      may throw). */
  function Collect<T>(rs: seq<Result<T, Error>>): (r: Result<seq<T>, Error>)
    ensures r.Ok? <==> forall k :: 0 <= k < |rs| ==> rs[k].Ok?
    ensures r.Ok? ==> |r.value| == |rs| && forall k :: 0 <= k < |rs| ==> rs[k] == Ok(r.value[k])
  {
    if rs == [] then Ok([])
    else
      var n := |rs| - 1;
      assert forall k :: 0 <= k < n ==> rs[..n][k] == rs[k];
      match Collect(rs[..n])
        case Err(e) => Err(e)
        case Ok(prev) =>
          match rs[n]
            case Err(e) => Err(e)
            case Ok(x) => Ok(prev + [x])
  }

  lemma CollectAppend<T>(rs: seq<Result<T, Error>>, x: Result<T, Error>)
    requires Collect(rs).Ok?
    ensures Collect(rs + [x]) == match x case Err(e) => Err(e) case Ok(v) => Ok(Collect(rs).value + [v])
  {
    assert (rs + [x])[..|rs|] == rs;
  }

  /** The first error decides the outcome. */
  lemma {:induction false} CollectFirstError<T>(rs: seq<Result<T, Error>>, k: nat)
    requires k < |rs| && Collect(rs[..k]).Ok? && rs[k].Err?
    ensures Collect(rs) == Err(rs[k].error)
  {
    var n := |rs| - 1;
    if k == n {
      assert rs[..n] == rs[..k];
    } else {
      var p := rs[..n];
      assert p[..k] == rs[..k] && p[k] == rs[k];
      CollectFirstError(p, k);
    }
  }

  /** The index rebuilt on a cache miss: one entry per bound alt, in order, or
      the failure of the first alt that has none. */
  function Rebuild(alts: seq<string>): (r: Result<seq<Entry>, Error>)
    ensures r.Ok? <==> forall k :: 0 <= k < |alts| ==> IndexEntry(alts[k]).Ok?
    ensures r.Ok? ==> |r.value| == |alts| && forall k :: 0 <= k < |alts| ==> IndexEntry(alts[k]) == Ok(r.value[k])
  {
    Collect(IndexEntries(alts))
  }

  function IndexEntries(alts: seq<string>): (r: seq<Result<Entry, Error>>)
    ensures |r| == |alts| && forall k :: 0 <= k < |alts| ==> r[k] == IndexEntry(alts[k])
  {
    seq(|alts|, k requires 0 <= k < |alts| => IndexEntry(alts[k]))
  }

  /** An image bound to any diagram type but `venn` makes the rebuild fail. */
  lemma OtherTypeBreaksRebuild(alts: seq<string>, k: nat, diagramType: string, uniqueId: nat, sheetId: nat, a1Notation: string)
    requires k < |alts| && alts[k] == EncodeAlt(diagramType, uniqueId, sheetId, a1Notation)
    requires '#' !in diagramType && diagramType != "venn"
    ensures Rebuild(alts).Err?
  {
    OtherTypesIgnored(diagramType, uniqueId, sheetId, a1Notation);
  }

  /** The index entry of an alt written by `addBoundDiagram_` is the bound
      sheet and range. */
  lemma EncodedEntry(uniqueId: nat, sheetId: nat, range: Extent)
    requires range.startRow >= 0 && range.endRow >= 0 && range.startCol >= 1 && range.endCol >= 1
    ensures var alt := EncodeAlt("venn", uniqueId, sheetId, HostA1Notation(range));
      IndexEntry(alt) == Ok(Entry(alt, Some(sheetId), range))
  {
    HostNotationHasNoHash(range);
    DecodeEncoded(uniqueId, sheetId, HostA1Notation(range));
    ParseHostNotation(range);
  }

  /** The entries an edit of `edit` on sheet `sheetId` concerns, in index order. */
  function Matches(database: seq<Entry>, sheetId: nat, edit: Extent): (r: seq<Entry>)
    ensures forall x :: x in r <==> x in database && x.sheetId == Some(sheetId) && RangesIntersect(edit, x.extent)
    ensures |r| <= |database|
  {
    if database == [] then []
    else
      var n := |database| - 1;
      var prev := Matches(database[..n], sheetId, edit);
      assert database == database[..n] + [database[n]];
      var x := database[n];
      if x.sheetId == Some(sheetId) && RangesIntersect(edit, x.extent) then prev + [x] else prev
  }

  /** `boundDiagramMap[alt]`: the last bound image carrying `alt`, if any. */
  function LiveIndex(images: seq<Image>, alt: string): (r: Option<nat>)
    ensures r.Some? ==> (r.value < |images| && images[r.value].alt == alt && IsBoundAlt(alt)
      && forall j :: r.value < j < |images| ==> images[j].alt != alt)
    ensures r.None? ==> !IsBoundAlt(alt) || forall j :: 0 <= j < |images| ==> images[j].alt != alt
  {
    if images == [] || !IsBoundAlt(alt) then None
    else
      var n := |images| - 1;
      if images[n].alt == alt then Some(n)
      else
        assert forall j :: 0 <= j < n ==> images[..n][j] == images[j];
        LiveIndex(images[..n], alt)
  }

  /** The images to redraw: the live image of each match, in match order; a
      match without one is dropped. */
  function Relevant(matches: seq<Entry>, images: seq<Image>): (r: seq<nat>)
    ensures forall k :: 0 <= k < |r| ==> r[k] < |images|
    ensures forall i :: i in r <==> exists x :: x in matches && LiveIndex(images, x.alt) == Some(i)
  {
    if matches == [] then []
    else
      var n := |matches| - 1;
      var prev := Relevant(matches[..n], images);
      assert matches == matches[..n] + [matches[n]];
      match LiveIndex(images, matches[n].alt)
        case None => prev
        case Some(i) => prev + [i]
  }

  /** A prepared redraw of image `index`, with the alt and size it had before. */
  datatype Update = Update(index: nat, alt: string, blob: Blob, width: nat, height: nat)

  /** The redraw of image `i`: its range is read on the edited sheet by the
      decoded notation (`read`, absent when the host rejects it). */
  ghost function UpdateFor(images: seq<Image>, i: nat, read: string -> Option<Grid>): (r: Result<Update, Error>)
    requires i < |images|
    ensures r.Ok? ==> (r.value.index == i && r.value.alt == images[i].alt
      && r.value.width == images[i].width && r.value.height == images[i].height)
  {
    var image := images[i];
    match ParseAlt(image.alt)
      case None => Err(RangeUnavailable)
      case Some(b) =>
        if b.a1Notation.None? then Err(RangeUnavailable)
        else match read(b.a1Notation.value)
          case None => Err(RangeUnavailable)
          case Some(values) =>
            match VennImage(values, image.alt)
              case Err(e) => Err(e)
              case Ok(blob) => Ok(Update(i, image.alt, blob, image.width, image.height))
  }

  predicate ValidTargets(images: seq<Image>, targets: seq<nat>)
  {
    forall k :: 0 <= k < |targets| ==> targets[k] < |images|
  }

  /** All redraws, or the first failure: one failing image fails them all. */
  ghost function Recompute(images: seq<Image>, targets: seq<nat>, read: string -> Option<Grid>): (r: Result<seq<Update>, Error>)
    requires ValidTargets(images, targets)
    ensures r.Ok? <==> forall k :: 0 <= k < |targets| ==> UpdateFor(images, targets[k], read).Ok?
    ensures r.Ok? ==> |r.value| == |targets| && forall k :: 0 <= k < |targets| ==> UpdateFor(images, targets[k], read) == Ok(r.value[k])
  {
    Collect(Redraws(images, targets, read))
  }

  ghost function Redraws(images: seq<Image>, targets: seq<nat>, read: string -> Option<Grid>): (r: seq<Result<Update, Error>>)
    requires ValidTargets(images, targets)
    ensures |r| == |targets| && forall k :: 0 <= k < |targets| ==> r[k] == UpdateFor(images, targets[k], read)
  {
    seq(|targets|, k requires 0 <= k < |targets| => UpdateFor(images, targets[k], read))
  }

  /** Redraws aimed at an image carry that image's own alt and size. */
  predicate Consistent(images: seq<Image>, updates: seq<Update>)
  {
    forall k :: 0 <= k < |updates| ==>
      var u := updates[k];
      u.index < |images| && u.alt == images[u.index].alt && u.width == images[u.index].width && u.height == images[u.index].height
  }

  lemma RecomputeConsistent(images: seq<Image>, targets: seq<nat>, read: string -> Option<Grid>)
    requires ValidTargets(images, targets) && Recompute(images, targets, read).Ok?
    ensures Consistent(images, Recompute(images, targets, read).value)
  {
    var us := Recompute(images, targets, read).value;
    forall k | 0 <= k < |us|
      ensures us[k].index < |images| && us[k].alt == images[us[k].index].alt
      ensures us[k].width == images[us[k].index].width && us[k].height == images[us[k].index].height
    {
      assert UpdateFor(images, targets[k], read) == Ok(us[k]);
    }
  }

  /** What an edit leads to: nothing when no entry matches, otherwise the
      redraws to apply. */
  datatype Plan = NoMatches | Apply(updates: seq<Update>)

  /** The index an edit works from: the cached one, else a rebuild. */
  function DatabaseFor(images: seq<Image>, cache: Option<seq<Entry>>): Result<seq<Entry>, Error>
  {
    if cache.Some? then Ok(cache.value) else Rebuild(BoundAlts(images))
  }

  /** The cache after an edit: a hit is kept, a successful rebuild is stored. */
  function CacheAfter(images: seq<Image>, cache: Option<seq<Entry>>): Option<seq<Entry>>
  {
    if cache.Some? then cache
    else match Rebuild(BoundAlts(images))
      case Ok(database) => Some(database)
      case Err(_) => None
  }

  /** `onEdit` as a value: the index, the matches, the live images and their
      redraws. */
  ghost function EditPlan(images: seq<Image>, cache: Option<seq<Entry>>, sheetId: nat, edit: Extent, read: string -> Option<Grid>): Result<Plan, Error>
  {
    match DatabaseFor(images, cache)
      case Err(e) => Err(e)
      case Ok(database) =>
        var matches := Matches(database, sheetId, edit);
        if matches == [] then Ok(NoMatches)
        else match Recompute(images, Relevant(matches, images), read)
          case Err(e) => Err(e)
          case Ok(updates) => Ok(Apply(updates))
  }

  /** A cached index is used as it is, whatever the images now say. */
  lemma CachedIndexUsed(images: seq<Image>, database: seq<Entry>, sheetId: nat, edit: Extent, read: string -> Option<Grid>)
    ensures CacheAfter(images, Some(database)) == Some(database)
    ensures Matches(database, sheetId, edit) == [] ==> EditPlan(images, Some(database), sheetId, edit, read) == Ok(NoMatches)
  {
  }

  /** A diagram bound to B2:C5 on sheet 7: an edit of A1:A10 misses it, an edit
      of C3 or of its corner cell C5 hits it, and the same cells on another
      sheet do not. An entry whose sheet id did not parse never matches. */
  lemma MatchExamples(alt: string)
    ensures var x := Entry(alt, Some(7), Extent(2, 2, 5, 3));
      Matches([x], 7, Extent(1, 1, 10, 1)) == []
      && Matches([x], 7, Extent(3, 3, 3, 3)) == [x]
      && Matches([x], 7, Extent(5, 3, 6, 4)) == [x]
      && Matches([x], 8, Extent(3, 3, 3, 3)) == []
      && Matches([Entry(alt, None, Extent(2, 2, 5, 3))], 7, Extent(3, 3, 3, 3)) == []
  {
  }

  /** The position of the last redraw aimed at image `i`. */
  function LastTarget(updates: seq<Update>, i: nat): (r: Option<nat>)
    ensures r.Some? ==> (r.value < |updates| && updates[r.value].index == i
      && forall j :: r.value < j < |updates| ==> updates[j].index != i)
    ensures r.None? ==> forall j :: 0 <= j < |updates| ==> updates[j].index != i
  {
    if updates == [] then None
    else
      var n := |updates| - 1;
      if updates[n].index == i then Some(n)
      else
        assert forall j :: 0 <= j < n ==> updates[..n][j] == updates[j];
        LastTarget(updates[..n], i)
  }

  /** `replace(blob)` as far as the model knows: the content changes and the
      host may reset the alt and choose the size of the new picture. */
  function ReplaceContent(image: Image, blob: Blob, naturalSize: Blob -> (nat, nat)): Image
  {
    image.(alt := "", width := naturalSize(blob).0, height := naturalSize(blob).1, content := blob)
  }

  predicate ValidUpdates(images: seq<Image>, updates: seq<Update>)
  {
    forall k :: 0 <= k < |updates| ==> updates[k].index < |images|
  }

  /** The images after the first phase: every redraw's `replace`, in order. */
  function AfterReplace(images: seq<Image>, updates: seq<Update>, naturalSize: Blob -> (nat, nat)): (r: seq<Image>)
    requires ValidUpdates(images, updates)
    ensures |r| == |images|
  {
    if updates == [] then images
    else
      var n := |updates| - 1;
      var prev := AfterReplace(images, updates[..n], naturalSize);
      var u := updates[n];
      prev[u.index := ReplaceContent(prev[u.index], u.blob, naturalSize)]
  }

  /** The images after the second phase: every redraw's alt, width and height
      set back, in order. */
  function AfterRestore(images: seq<Image>, updates: seq<Update>): (r: seq<Image>)
    requires ValidUpdates(images, updates)
    ensures |r| == |images|
  {
    if updates == [] then images
    else
      var n := |updates| - 1;
      var prev := AfterRestore(images, updates[..n]);
      var u := updates[n];
      prev[u.index := prev[u.index].(alt := u.alt, width := u.width, height := u.height)]
  }

  /** One more redraw in the second phase: its three writes on top of the earlier ones. */
  lemma RestoreStep(images: seq<Image>, updates: seq<Update>, k: nat)
    requires k < |updates| && ValidUpdates(images, updates)
    ensures ValidUpdates(images, updates[..k]) && ValidUpdates(images, updates[..k + 1])
    ensures var u, prev := updates[k], AfterRestore(images, updates[..k]);
      u.index < |prev|
      && AfterRestore(images, updates[..k + 1])
         == prev[u.index := prev[u.index].(alt := u.alt)][u.index := prev[u.index].(alt := u.alt, width := u.width)]
                [u.index := prev[u.index].(alt := u.alt, width := u.width, height := u.height)]
      && MetadataEvents(updates[..k + 1])
         == MetadataEvents(updates[..k]) + [AltSet(u.index, u.alt)] + [WidthSet(u.index, u.width)] + [HeightSet(u.index, u.height)]
  {
    assert updates[..k + 1][..k] == updates[..k];
  }

  lemma {:induction false} AfterReplaceAt(images: seq<Image>, updates: seq<Update>, naturalSize: Blob -> (nat, nat), i: nat)
    requires ValidUpdates(images, updates) && i < |images|
    ensures AfterReplace(images, updates, naturalSize)[i]
         == match LastTarget(updates, i)
              case None => images[i]
              case Some(k) => ReplaceContent(images[i], updates[k].blob, naturalSize)
  {
    if updates != [] {
      var n := |updates| - 1;
      var p := updates[..n];
      AfterReplaceAt(images, p, naturalSize, i);
      if updates[n].index != i {
        assert LastTarget(updates, i) == LastTarget(p, i);
        match LastTarget(p, i)
          case None =>
          case Some(k) => assert p[k] == updates[k];
      }
    }
  }

  lemma {:induction false} AfterRestoreAt(images: seq<Image>, updates: seq<Update>, i: nat)
    requires ValidUpdates(images, updates) && i < |images|
    ensures AfterRestore(images, updates)[i]
         == match LastTarget(updates, i)
              case None => images[i]
              case Some(k) => images[i].(alt := updates[k].alt, width := updates[k].width, height := updates[k].height)
  {
    if updates != [] {
      var n := |updates| - 1;
      var p := updates[..n];
      AfterRestoreAt(images, p, i);
      if updates[n].index != i {
        assert LastTarget(updates, i) == LastTarget(p, i);
        match LastTarget(p, i)
          case None =>
          case Some(k) => assert p[k] == updates[k];
      }
    }
  }

  /** After both phases every image keeps its sheet, anchor, alt and size; its
      content is the last redraw aimed at it, or is untouched. */
  lemma ApplyKeepsMetadata(images: seq<Image>, updates: seq<Update>, naturalSize: Blob -> (nat, nat), i: nat)
    requires Consistent(images, updates) && i < |images|
    ensures ValidUpdates(images, updates) && ValidUpdates(AfterReplace(images, updates, naturalSize), updates)
    ensures AfterRestore(AfterReplace(images, updates, naturalSize), updates)[i]
         == match LastTarget(updates, i)
              case None => images[i]
              case Some(k) => images[i].(content := updates[k].blob)
  {
    AfterReplaceAt(images, updates, naturalSize, i);
    AfterRestoreAt(AfterReplace(images, updates, naturalSize), updates, i);
  }

  /** A write to the surface. */
  datatype Event =
    | ImageInserted(index: nat)
    | ContentReplaced(index: nat)
    | Settled
    | AltSet(index: nat, alt: string)
    | WidthSet(index: nat, width: nat)
    | HeightSet(index: nat, height: nat)

  predicate IsMetadata(e: Event)
  {
    e.AltSet? || e.WidthSet? || e.HeightSet?
  }

  /** The first phase's writes. */
  function ReplaceEvents(updates: seq<Update>): (r: seq<Event>)
    ensures |r| == |updates| && forall p :: 0 <= p < |r| ==> r[p] == ContentReplaced(updates[p].index)
  {
    if updates == [] then []
    else
      var n := |updates| - 1;
      assert forall p :: 0 <= p < n ==> updates[..n][p] == updates[p];
      ReplaceEvents(updates[..n]) + [ContentReplaced(updates[n].index)]
  }

  /** The second phase's writes, three per redraw. */
  function MetadataEvents(updates: seq<Update>): (r: seq<Event>)
    ensures |r| == 3 * |updates| && forall p :: 0 <= p < |r| ==> IsMetadata(r[p]) && r[p].index == updates[p / 3].index
  {
    if updates == [] then []
    else
      var n := |updates| - 1;
      var u := updates[n];
      var prev := MetadataEvents(updates[..n]);
      var r := prev + [AltSet(u.index, u.alt), WidthSet(u.index, u.width), HeightSet(u.index, u.height)];
      assert forall p :: 0 <= p < 3 * n ==> r[p] == prev[p] && updates[..n][p / 3] == updates[p / 3];
      assert forall p :: 3 * n <= p < 3 * n + 3 ==> p / 3 == n;
      r
  }

  /** The trace of an applied edit: all replacements, then the settle, then all
      metadata writes, so no metadata write comes before a replacement. */
  lemma TwoPhases(updates: seq<Update>)
    ensures var t := ReplaceEvents(updates) + [Settled] + MetadataEvents(updates);
      |t| == 4 * |updates| + 1
      && (forall p :: 0 <= p < |t| ==> (t[p].ContentReplaced? <==> p < |updates|) && (t[p].Settled? <==> p == |updates|) && (IsMetadata(t[p]) <==> p > |updates|))
      && forall p, q :: 0 <= p < q < |t| && t[q].ContentReplaced? ==> !IsMetadata(t[p])
  {
  }

  /** An image bound to `range` on its sheet joins the index at its end: an
      edit of that range on that sheet now matches it. */
  lemma AddedDiagramIndexed(images: seq<Image>, added: Image, range: Extent, edit: Extent)
    requires IsBoundAlt(added.alt) && IndexEntry(added.alt) == Ok(Entry(added.alt, Some(added.sheetId), range))
    requires Rebuild(BoundAlts(images)).Ok?
    ensures Rebuild(BoundAlts(images + [added]))
         == Ok(Rebuild(BoundAlts(images)).value + [Entry(added.alt, Some(added.sheetId), range)])
    ensures RangesIntersect(edit, range) ==>
      Entry(added.alt, Some(added.sheetId), range) in Matches(Rebuild(BoundAlts(images + [added])).value, added.sheetId, edit)
  {
    var entry := Entry(added.alt, Some(added.sheetId), range);
    AddedRebuild(images, added, entry);
    var database := Rebuild(BoundAlts(images + [added])).value;
    assert database[|database| - 1] == entry;
  }

  /** The rebuilt index after one more bound image is the old one and that image's entry. */
  lemma AddedRebuild(images: seq<Image>, added: Image, entry: Entry)
    requires IsBoundAlt(added.alt) && IndexEntry(added.alt) == Ok(entry)
    requires Rebuild(BoundAlts(images)).Ok?
    ensures Rebuild(BoundAlts(images + [added])) == Ok(Rebuild(BoundAlts(images)).value + [entry])
  {
    var alts := BoundAlts(images);
    BoundAltsSnoc(images, added);
    IndexEntriesSnoc(alts, added.alt);
    CollectAppend(IndexEntries(alts), IndexEntry(added.alt));
  }

  /** A bound image added last puts its alt last among the bound alts. */
  lemma BoundAltsSnoc(images: seq<Image>, added: Image)
    requires IsBoundAlt(added.alt)
    ensures BoundAlts(images + [added]) == BoundAlts(images) + [added.alt]
  {
    assert (images + [added])[..|images|] == images;
  }

  /** One more alt adds its entry at the end. */
  lemma IndexEntriesSnoc(alts: seq<string>, alt: string)
    ensures IndexEntries(alts + [alt]) == IndexEntries(alts) + [IndexEntry(alt)]
  {
    var r, s := IndexEntries(alts + [alt]), IndexEntries(alts) + [IndexEntry(alt)];
    assert |r| == |s|;
    forall k | 0 <= k < |r|
      ensures r[k] == s[k]
    {
      if k < |alts| {
        assert (alts + [alt])[k] == alts[k];
      }
    }
  }

  /** The alt `addBoundDiagram_` writes is bound and indexes the sheet and
      range it was made for. */
  lemma AddedAltIndexed(uniqueId: nat, sheetId: nat, range: Extent)
    requires range.startRow >= 0 && range.endRow >= 0 && range.startCol >= 1 && range.endCol >= 1
    ensures var alt := EncodeAlt("venn", uniqueId, sheetId, HostA1Notation(range));
      IsBoundAlt(alt) && IndexEntry(alt) == Ok(Entry(alt, Some(sheetId), range))
  {
    EncodedIsBound("venn", uniqueId, sheetId, HostA1Notation(range));
    EncodedEntry(uniqueId, sheetId, range);
  }

  /** `DIAGRAM_TYPES[diagramType](range, alt)`: only `venn` has a drawing. */
  ghost function DiagramImage(diagramType: string, values: Grid, alt: string): Result<Blob, Error>
  {
    if diagramType == "venn" then VennImage(values, alt) else Err(UnknownDiagramType)
  }

  /** The spreadsheet as the add-on sees it. `naturalSize` is the size the host
      gives a picture when it is inserted or replaced. */
  class Spreadsheet {
    var images: seq<Image>
    var cache: Option<seq<Entry>>
    var trace: seq<Event>
    const naturalSize: Blob -> (nat, nat)

    constructor(images0: seq<Image>, naturalSize0: Blob -> (nat, nat))
      ensures images == images0 && cache == None && trace == [] && naturalSize == naturalSize0
    {
      images := images0;
      cache := None;
      trace := [];
      naturalSize := naturalSize0;
    }

    /** `insertImage(blob, column, row)` on sheet `sheetId`. */
    method InsertImage(sheetId: nat, column: nat, row: nat, blob: Blob) returns (index: nat)
      modifies this
      ensures index == |old(images)|
      ensures images == old(images) + [Image(sheetId, column, row, "", naturalSize(blob).0, naturalSize(blob).1, blob)]
      ensures cache == old(cache) && trace == old(trace) + [ImageInserted(index)]
    {
      index := |images|;
      images := images + [Image(sheetId, column, row, "", naturalSize(blob).0, naturalSize(blob).1, blob)];
      trace := trace + [ImageInserted(index)];
    }

    /** `overGridImage.replace(blob)`. */
    method Replace(i: nat, blob: Blob)
      requires i < |images|
      modifies this
      ensures images == old(images)[i := ReplaceContent(old(images)[i], blob, naturalSize)]
      ensures cache == old(cache) && trace == old(trace) + [ContentReplaced(i)]
    {
      images := images[i := ReplaceContent(images[i], blob, naturalSize)];
      trace := trace + [ContentReplaced(i)];
    }

    /** `imageUpdateWorkaround_`: the pending writes reach the document. */
    method Settle()
      modifies this
      ensures images == old(images) && cache == old(cache) && trace == old(trace) + [Settled]
    {
      trace := trace + [Settled];
    }

    method SetAlt(i: nat, alt: string)
      requires i < |images|
      modifies this
      ensures images == old(images)[i := old(images)[i].(alt := alt)]
      ensures cache == old(cache) && trace == old(trace) + [AltSet(i, alt)]
    {
      images := images[i := images[i].(alt := alt)];
      trace := trace + [AltSet(i, alt)];
    }

    method SetWidth(i: nat, width: nat)
      requires i < |images|
      modifies this
      ensures images == old(images)[i := old(images)[i].(width := width)]
      ensures cache == old(cache) && trace == old(trace) + [WidthSet(i, width)]
    {
      images := images[i := images[i].(width := width)];
      trace := trace + [WidthSet(i, width)];
    }

    method SetHeight(i: nat, height: nat)
      requires i < |images|
      modifies this
      ensures images == old(images)[i := old(images)[i].(height := height)]
      ensures cache == old(cache) && trace == old(trace) + [HeightSet(i, height)]
    {
      images := images[i := images[i].(height := height)];
      trace := trace + [HeightSet(i, height)];
    }

    /** `generateVennImage_` on the values of a range. */
    method GenerateVennImage(values: Grid, alt: string) returns (r: Result<Blob, Error>)
      ensures r == VennImage(values, alt)
    {
      var table := VennTable(values);
      if table.Err? {
        return Err(table.error);
      }
      var labels, names := VennLabelsNames(table.value);
      if |names| < 2 || |names| > 6 {
        return Err(SetCountOutOfRange);
      }
      return Ok(VennPng(labels, names, alt));
    }

    /** The redraw of one live image, reading its range on the edited sheet. */
    method PrepareUpdate(i: nat, read: string -> Option<Grid>) returns (r: Result<Update, Error>)
      requires i < |images|
      ensures r == UpdateFor(images, i, read)
    {
      var image := images[i];
      var b := ParseAlt(image.alt);
      if b.None? || b.value.a1Notation.None? {
        return Err(RangeUnavailable);
      }
      var values := read(b.value.a1Notation.value);
      if values.None? {
        return Err(RangeUnavailable);
      }
      var blob := GenerateVennImage(values.value, image.alt);
      if blob.Err? {
        return Err(blob.error);
      }
      return Ok(Update(i, image.alt, blob.value, image.width, image.height));
    }

    /** All redraws, one image after the other; nothing is written. */
    method PrepareUpdates(targets: seq<nat>, read: string -> Option<Grid>) returns (r: Result<seq<Update>, Error>)
      requires ValidTargets(images, targets)
      ensures r == Recompute(images, targets, read)
    {
      var updates: seq<Update> := [];
      var k := 0;
      while k < |targets|
        invariant 0 <= k <= |targets|
        invariant Collect(Redraws(images, targets, read)[..k]) == Ok(updates)
      {
        var rs := Redraws(images, targets, read);
        var u := PrepareUpdate(targets[k], read);
        assert rs[..k + 1][..k] == rs[..k];
        if u.Err? {
          CollectFirstError(rs, k);
          return Err(u.error);
        }
        updates := updates + [u.value];
        k := k + 1;
      }
      assert Redraws(images, targets, read)[..k] == Redraws(images, targets, read);
      return Ok(updates);
    }

    /** Both phases: every `replace`, the settle, then every alt, width and
      height set back. */
    method ApplyUpdates(updates: seq<Update>)
      requires ValidUpdates(images, updates)
      modifies this
      ensures images == AfterRestore(AfterReplace(old(images), updates, naturalSize), updates)
      ensures trace == old(trace) + ReplaceEvents(updates) + [Settled] + MetadataEvents(updates)
      ensures cache == old(cache)
    {
      ReplaceAll(updates);
      Settle();
      RestoreAll(updates);
    }

    /** The first phase: `replace` every redrawn image, in order. */
    method ReplaceAll(updates: seq<Update>)
      requires ValidUpdates(images, updates)
      modifies this
      ensures images == AfterReplace(old(images), updates, naturalSize) && ValidUpdates(images, updates)
      ensures trace == old(trace) + ReplaceEvents(updates)
      ensures cache == old(cache)
    {
      var k := 0;
      while k < |updates|
        invariant 0 <= k <= |updates| && ValidUpdates(old(images), updates[..k])
        invariant images == AfterReplace(old(images), updates[..k], naturalSize)
        invariant trace == old(trace) + ReplaceEvents(updates[..k])
        invariant cache == old(cache)
      {
        assert updates[..k + 1][..k] == updates[..k];
        Replace(updates[k].index, updates[k].blob);
        k := k + 1;
      }
      assert updates[..k] == updates;
    }

    /** The second phase: set back every redrawn image's alt, width and height,
      in order. */
    method RestoreAll(updates: seq<Update>)
      requires ValidUpdates(images, updates)
      modifies this
      ensures images == AfterRestore(old(images), updates)
      ensures trace == old(trace) + MetadataEvents(updates)
      ensures cache == old(cache)
    {
      var k := 0;
      while k < |updates|
        invariant 0 <= k <= |updates| && ValidUpdates(old(images), updates[..k])
        invariant images == AfterRestore(old(images), updates[..k])
        invariant trace == old(trace) + MetadataEvents(updates[..k])
        invariant cache == old(cache)
      {
        RestoreStep(old(images), updates, k);
        var u := updates[k];
        SetAlt(u.index, u.alt);
        SetWidth(u.index, u.width);
        SetHeight(u.index, u.height);
        k := k + 1;
      }
      assert updates[..k] == updates;
    }

    /** `onEdit` for an edit of `edit` on sheet `editSheetId`; `read` gives the
      values of a range of that sheet by its notation. */
    method OnEdit(editSheetId: nat, edit: Extent, read: string -> Option<Grid>) returns (r: Result<Plan, Error>)
      modifies this
      ensures r == EditPlan(old(images), old(cache), editSheetId, edit, read)
      ensures cache == CacheAfter(old(images), old(cache))
      ensures r.Ok? && r.value.Apply? ==>
        var updates := r.value.updates;
        ValidUpdates(old(images), updates)
        && images == AfterRestore(AfterReplace(old(images), updates, naturalSize), updates)
        && trace == old(trace) + ReplaceEvents(updates) + [Settled] + MetadataEvents(updates)
      ensures !(r.Ok? && r.value.Apply?) ==> images == old(images) && trace == old(trace)
    {
      var database: seq<Entry>;
      if cache.Some? {
        database := cache.value;
      } else {
        var rebuilt := Rebuild(BoundAlts(images));
        if rebuilt.Err? {
          return Err(rebuilt.error);
        }
        database := rebuilt.value;
        cache := Some(database);
      }
      var matches := Matches(database, editSheetId, edit);
      if matches == [] {
        return Ok(NoMatches);
      }
      var targets := Relevant(matches, images);
      var prepared := PrepareUpdates(targets, read);
      if prepared.Err? {
        return Err(prepared.error);
      }
      RecomputeConsistent(images, targets, read);
      ApplyUpdates(prepared.value);
      return Ok(Apply(prepared.value));
    }

    /** `addBoundDiagram_`: draw the range, insert the picture to the right of
      it, drop the cached index and bind the picture by its alt. */
    method AddBoundDiagram(sheetId: nat, range: Extent, diagramType: string, uniqueId: nat, values: Grid)
      returns (r: Result<nat, Error>)
      requires range.startRow >= 1 && range.startCol >= 1 && WellFormed(range)
      modifies this
      ensures var drawn := DiagramImage(diagramType, values, EncodeAlt(diagramType, uniqueId, sheetId, HostA1Notation(range)));
        match drawn
          case Err(e) => r == Err(e) && images == old(images) && cache == old(cache) && trace == old(trace)
          case Ok(blob) =>
            r == Ok(|old(images)|)
            && images == old(images) + [Image(sheetId, range.endCol + 1, range.startRow, blob.name, naturalSize(blob).0, naturalSize(blob).1, blob)]
            && cache == None
            && trace == old(trace) + [ImageInserted(|old(images)|), Settled, AltSet(|old(images)|, blob.name)]
    {
      var alt := EncodeAlt(diagramType, uniqueId, sheetId, HostA1Notation(range));
      var image := Draw(diagramType, values, alt);
      if image.Err? {
        return Err(image.error);
      }
      var index := InsertImage(sheetId, range.endCol + 1, range.startRow, image.value);
      Settle();
      cache := None;
      SetAlt(index, image.value.name);
      return Ok(index);
    }

    /** The drawing function of the diagram type, applied to the range. */
    method Draw(diagramType: string, values: Grid, alt: string) returns (r: Result<Blob, Error>)
      ensures r == DiagramImage(diagramType, values, alt)
    {
      if diagramType != "venn" {
        return Err(UnknownDiagramType);
      }
      r := GenerateVennImage(values, alt);
    }
  }

  /** An applied edit leaves every image's sheet, anchor, alt and size as they
      were and gives each redrawn image its new picture. */
  lemma EditKeepsMetadata(images: seq<Image>, cache: Option<seq<Entry>>, sheetId: nat, edit: Extent,
                          read: string -> Option<Grid>, naturalSize: Blob -> (nat, nat), i: nat)
    requires i < |images|
    requires EditPlan(images, cache, sheetId, edit, read).Ok? && EditPlan(images, cache, sheetId, edit, read).value.Apply?
    ensures var updates := EditPlan(images, cache, sheetId, edit, read).value.updates;
      ValidUpdates(images, updates) && ValidUpdates(AfterReplace(images, updates, naturalSize), updates)
      && AfterRestore(AfterReplace(images, updates, naturalSize), updates)[i]
         == match LastTarget(updates, i)
              case None => images[i]
              case Some(k) => images[i].(content := updates[k].blob)
  {
    var database := DatabaseFor(images, cache).value;
    var targets := Relevant(Matches(database, sheetId, edit), images);
    RecomputeConsistent(images, targets, read);
    ApplyKeepsMetadata(images, Recompute(images, targets, read).value, naturalSize, i);
  }
}
