/**
 * The block's saved markup and its reading back: `save` turns the
 * attributes into a carousel element (or nothing), and the block's attribute
 * sources read the slides back out of that markup. The id is read back only
 * with the corrected id source; as written it is lost (see `Findings`).
 */
module Markup {
  import opened Wrappers
  import opened Partners
  import opened Decimal

  /** The block's attributes. `autoPlay` is kept as the text spliced into the carousel options. */
  datatype Attributes = Attributes(id: string, showButtons: bool, autoPlay: string, partners: seq<Partner>)

  /** One saved slide: the text of its hidden position element and the source of its image element, if any. */
  datatype Cell = Cell(indexText: string, imageSrc: Option<string>)

  /** The saved carousel element: its classes, its options attribute, its id attribute and its slides. */
  datatype Carousel = Carousel(classes: seq<string>, config: string, id: string, cells: seq<Cell>)

  /** The class of the saved carousel element. */
  const CarouselClass := "carousel"

  /**
   * The corrected class for the block's `id` attribute source: the class the
   * saved element carrying the id has. The code as written looks for `slide`
   * instead (`Findings.IdSourceClassAsWritten`).
   */
  const IdSourceClassCorrected := CarouselClass

  function BoolText(b: bool): string {
    if b then "true" else "false"
  }

  /** The carousel options, as key and value text, in the order they are written. */
  function ConfigFields(autoPlay: string, showButtons: bool): seq<(string, string)> {
    [ ("groupCells", "true"), ("freeScroll", "true"), ("draggable", "true"), ("contain", "true"),
      ("autoPlay", autoPlay), ("pauseAutoPlayOnHover", "false"),
      ("prevNextButtons", BoolText(showButtons)), ("pageDots", BoolText(showButtons)) ]
  }

  /** The value of the first option named `key`. */
  function Lookup(fs: seq<(string, string)>, key: string): Option<string> {
    if |fs| == 0 then None
    else if fs[0].0 == key then Some(fs[0].1)
    else Lookup(fs[1..], key)
  }

  /** One option as `"key": value`. */
  function FieldText(f: (string, string)): string {
    "\"" + f.0 + "\": " + f.1
  }

  /** The options separated by `, `. */
  function JoinFields(fs: seq<(string, string)>): string {
    if |fs| == 0 then ""
    else if |fs| == 1 then FieldText(fs[0])
    else FieldText(fs[0]) + ", " + JoinFields(fs[1..])
  }

  /** The first option named `key` sits at `i`. */
  lemma {:induction false} LookupAt(fs: seq<(string, string)>, key: string, i: nat)
    requires i < |fs| && fs[i].0 == key
    requires forall j :: 0 <= j < i ==> fs[j].0 != key
    ensures Lookup(fs, key) == Some(fs[i].1)
    decreases i
  {
    if i > 0 {
      LookupAt(fs[1..], key, i - 1);
    }
  }

  /** Joining the options from `i` on. */
  lemma JoinFrom(fs: seq<(string, string)>, i: nat)
    requires i + 1 < |fs|
    ensures JoinFields(fs[i..]) == FieldText(fs[i]) + ", " + JoinFields(fs[i + 1..])
  {
    assert fs[i..][1..] == fs[i + 1..];
  }

  /** The options text of the carousel element. */
  function Config(autoPlay: string, showButtons: bool): string {
    "{ " + JoinFields(ConfigFields(autoPlay, showButtons)) + " }"
  }

  /**
   * The options hold the autoplay text as given, both the navigation-button
   * and the page-dot flags follow `showButtons`, and the other flags are fixed.
   */
  lemma ConfigFlags(autoPlay: string, showButtons: bool)
    ensures Lookup(ConfigFields(autoPlay, showButtons), "prevNextButtons") == Some(BoolText(showButtons))
    ensures Lookup(ConfigFields(autoPlay, showButtons), "pageDots") == Some(BoolText(showButtons))
    ensures Lookup(ConfigFields(autoPlay, showButtons), "autoPlay") == Some(autoPlay)
    ensures Lookup(ConfigFields(autoPlay, showButtons), "groupCells") == Some("true")
    ensures Lookup(ConfigFields(autoPlay, showButtons), "freeScroll") == Some("true")
    ensures Lookup(ConfigFields(autoPlay, showButtons), "draggable") == Some("true")
    ensures Lookup(ConfigFields(autoPlay, showButtons), "contain") == Some("true")
    ensures Lookup(ConfigFields(autoPlay, showButtons), "pauseAutoPlayOnHover") == Some("false")
  {
    var fs := ConfigFields(autoPlay, showButtons);
    LookupAt(fs, "groupCells", 0);
    LookupAt(fs, "freeScroll", 1);
    LookupAt(fs, "draggable", 2);
    LookupAt(fs, "contain", 3);
    LookupAt(fs, "autoPlay", 4);
    LookupAt(fs, "pauseAutoPlayOnHover", 5);
    LookupAt(fs, "prevNextButtons", 6);
    LookupAt(fs, "pageDots", 7);
  }

  /** Eight options joined. */
  lemma JoinEight(fs: seq<(string, string)>)
    requires |fs| == 8
    ensures JoinFields(fs)
            == FieldText(fs[0]) + ", " + (FieldText(fs[1]) + ", " + (FieldText(fs[2]) + ", " + (FieldText(fs[3])
               + ", " + (FieldText(fs[4]) + ", " + (FieldText(fs[5]) + ", " + (FieldText(fs[6]) + ", "
               + FieldText(fs[7])))))))
  {
    assert fs[7..] == [fs[7]];
    JoinFrom(fs, 6);
    JoinFrom(fs, 5);
    JoinFrom(fs, 4);
    JoinFrom(fs, 3);
    JoinFrom(fs, 2);
    JoinFrom(fs, 1);
    JoinFrom(fs, 0);
    assert fs[0..] == fs;
  }

  /** Regrouping a joined list of eight texts between a prefix and a suffix. */
  lemma RegroupEight(p: string, f0: string, f1: string, f2: string, f3: string, f4: string, f5: string,
                     f6: string, f7: string, sep: string, q: string)
    ensures p + (f0 + sep + (f1 + sep + (f2 + sep + (f3 + sep + (f4 + sep + (f5 + sep + (f6 + sep + f7))))))) + q
            == p + f0 + sep + f1 + sep + f2 + sep + f3 + sep + f4 + sep + f5 + sep + f6 + sep + f7 + q
  {
  }

  /**
   * The options text is the block's fixed template with the autoplay text and
   * the button flag spliced in (written here with the template cut at its
   * commas).
   */
  lemma ConfigIsTemplate(autoPlay: string, showButtons: bool)
    ensures Config(autoPlay, showButtons)
            == "{ " + "\"groupCells\": true" + ", " + "\"freeScroll\": true" + ", " + "\"draggable\": true"
               + ", " + "\"contain\": true" + ", " + ("\"autoPlay\": " + autoPlay)
               + ", " + "\"pauseAutoPlayOnHover\": false"
               + ", " + ("\"prevNextButtons\": " + BoolText(showButtons))
               + ", " + ("\"pageDots\": " + BoolText(showButtons)) + " }"
  {
    var fs := ConfigFields(autoPlay, showButtons);
    var b := BoolText(showButtons);
    JoinEight(fs);
    RegroupEight("{ ", FieldText(fs[0]), FieldText(fs[1]), FieldText(fs[2]), FieldText(fs[3]), FieldText(fs[4]),
                 FieldText(fs[5]), FieldText(fs[6]), FieldText(fs[7]), ", ", " }");
    FixedFieldTexts();
    MoreFixedFieldTexts();
    PauseFieldText();
    SplicedFieldTexts(autoPlay, b);
  }

  /** The texts of the fixed options. */
  lemma FixedFieldTexts()
    ensures FieldText(("groupCells", "true")) == "\"groupCells\": true"
    ensures FieldText(("freeScroll", "true")) == "\"freeScroll\": true"
  {
  }

  /** The texts of the fixed options, continued. */
  lemma MoreFixedFieldTexts()
    ensures FieldText(("draggable", "true")) == "\"draggable\": true"
    ensures FieldText(("contain", "true")) == "\"contain\": true"
  {
  }

  /** The text of the fixed autoplay-pausing option. */
  lemma PauseFieldText()
    ensures FieldText(("pauseAutoPlayOnHover", "false")) == "\"pauseAutoPlayOnHover\": false"
  {
  }

  /** The texts of the options that carry the block's settings. */
  lemma SplicedFieldTexts(autoPlay: string, b: string)
    ensures FieldText(("autoPlay", autoPlay)) == "\"autoPlay\": " + autoPlay
    ensures FieldText(("prevNextButtons", b)) == "\"prevNextButtons\": " + b
    ensures FieldText(("pageDots", b)) == "\"pageDots\": " + b
  {
  }

  /** One saved slide: its position as decimal text, and an image element only when there is an image. */
  function RenderCell(p: Partner): (c: Cell)
    ensures ParseDecimal(c.indexText) == Some(p.index)
    ensures c.imageSrc.Some? <==> p.image != ""
    ensures c.imageSrc.Some? ==> c.imageSrc.value == p.image
  {
    DecimalRoundTrip(p.index);
    Cell(NatToDecimal(p.index), if p.image == "" then None else Some(p.image))
  }

  /**
   * The front-end markup: nothing for an empty list; otherwise a carousel
   * carrying the id and the options, with one slide per record in storage order.
   */
  function Save(a: Attributes): (r: Option<Carousel>)
    ensures r.None? <==> |a.partners| == 0
    ensures r.Some? ==> r.value.id == a.id && CarouselClass in r.value.classes
    ensures r.Some? ==> r.value.config == Config(a.autoPlay, a.showButtons)
    ensures r.Some? ==> |r.value.cells| == |a.partners|
    ensures r.Some? ==> forall i :: 0 <= i < |a.partners| ==>
              ParseDecimal(r.value.cells[i].indexText) == Some(a.partners[i].index)
    ensures r.Some? ==> forall i :: 0 <= i < |a.partners| ==>
              (r.value.cells[i].imageSrc.Some? <==> a.partners[i].image != "")
    ensures r.Some? ==> forall i :: 0 <= i < |a.partners| && r.value.cells[i].imageSrc.Some? ==>
              r.value.cells[i].imageSrc.value == a.partners[i].image
  {
    var cells := seq(|a.partners|, i requires 0 <= i < |a.partners| => RenderCell(a.partners[i]));
    if |a.partners| > 0 then
      Some(Carousel([CarouselClass], Config(a.autoPlay, a.showButtons), a.id, cells))
    else None
  }

  /**
   * The `id` attribute source: the id of the element carrying class
   * `sourceClass`, if the carousel has it. Only the carousel's classes are
   * looked at: the other saved divs (the slides, classed `carousel-cell
   * partner-slider partner`, and their `wp-block-partner-content-front`
   * bodies) carry neither class `slide` nor an id, so none of them can
   * supply one either.
   */
  function LoadId(c: Carousel, sourceClass: string): (id: Option<string>)
    ensures id.Some? <==> sourceClass in c.classes
    ensures id.Some? ==> id.value == c.id
  {
    if sourceClass in c.classes then Some(c.id) else None
  }

  /**
   * The `partners` attribute source: one record per saved slide, its position
   * read from the hidden text and its image from the image element (empty
   * when there is none). Fails when some position text is not a numeral.
   */
  function LoadPartners(cells: seq<Cell>): (r: Option<seq<Partner>>)
    ensures r.Some? <==> forall i :: 0 <= i < |cells| ==> IsNumeral(cells[i].indexText)
    ensures r.Some? ==> |r.value| == |cells|
    ensures r.Some? ==> forall i :: 0 <= i < |cells| ==>
              Some(r.value[i].index) == ParseDecimal(cells[i].indexText)
              && r.value[i].image == cells[i].imageSrc.GetOr("")
  {
    if |cells| == 0 then Some([])
    else
      match ParseDecimal(cells[0].indexText)
      case None => None
      case Some(index) =>
        match LoadPartners(cells[1..])
        case None =>
          assert !IsNumeral(cells[1..][0].indexText) || exists i :: 0 <= i < |cells[1..]| && !IsNumeral(cells[1..][i].indexText);
          None
        case Some(rest) =>
          Some([Partner(index, cells[0].imageSrc.GetOr(""))] + rest)
  }

  /**
   * Saving a non-empty list and reading it back gives the same records, in
   * the same order, and, with the corrected id source, the same id.
   */
  lemma SaveLoadRoundTrip(a: Attributes)
    requires |a.partners| > 0
    ensures LoadPartners(Save(a).value.cells) == Some(a.partners)
    ensures LoadId(Save(a).value, IdSourceClassCorrected) == Some(a.id)
  {
    var cells := Save(a).value.cells;
    var loaded := LoadPartners(cells);
    assert loaded.Some?;
    assert |loaded.value| == |a.partners|;
    forall i | 0 <= i < |a.partners| ensures loaded.value[i] == a.partners[i] {
      var p := a.partners[i];
      assert Some(loaded.value[i].index) == ParseDecimal(cells[i].indexText) == Some(p.index);
      assert loaded.value[i].image == cells[i].imageSrc.GetOr("");
      assert cells[i].imageSrc.Some? <==> p.image != "";
      assert loaded.value[i].image == p.image;
    }
    assert loaded.value == a.partners;
  }

  /**
   * The edit view's id: an existing id is kept; a block without one gets
   * `partner` followed by a random number below 100.
   */
  function EnsureId(id: string, roll: nat): (r: string)
    requires roll < 100
    ensures id != "" ==> r == id
    ensures id == "" ==> |r| > 7 && r[..7] == "partner" && ParseDecimal(r[7..]) == Some(roll)
  {
    if id != "" then id
    else
      DecimalRoundTrip(roll);
      var r := "partner" + NatToDecimal(roll);
      assert r[7..] == NatToDecimal(roll);
      r
  }

  /**
   * One slide with an image, buttons hidden, three-second autoplay: one
   * carousel whose options carry `"autoPlay": 3000` and both flags false
   * (`ConfigIsTemplate`, `ConfigFlags`), with one slide showing the image.
   */
  lemma SaveOneSlide()
    ensures Save(Attributes("partner7", false, "3000", [Partner(0, "x.jpg")]))
            == Some(Carousel(["carousel"], Config("3000", false), "partner7", [Cell("0", Some("x.jpg"))]))
  {
    var a := Attributes("partner7", false, "3000", [Partner(0, "x.jpg")]);
    assert NatToDecimal(0) == "0";
    assert RenderCell(Partner(0, "x.jpg")) == Cell("0", Some("x.jpg"));
    assert Save(a).value.cells == [Cell("0", Some("x.jpg"))];
  }
}
