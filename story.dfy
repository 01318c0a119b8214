/**
 * The recipe-to-blocks pass of `create_pdf_doc`: each recipe record
 * becomes a sub-list of layout blocks (heading, metadata line, ingredient
 * table, optional instructions and notes, page break or gap), and the
 * story handed to the layout engine is one spacer followed by the
 * sub-lists in recipe order.
 *
 * Recipes arrive as records whose sub-elements are already text; the
 * layout engine itself (styles, fonts, drawing, bookmarks) is not modelled,
 * only the blocks handed to it.
 */
module PdfStory {
  import opened Wrappers
  import opened PyStr
  import StarRating

  /** One `<ingredient>`: the text its amount, unit and item contribute to the line, each possibly missing. */
  datatype Ingredient = Ingredient(amount: Option<string>, unit: Option<string>, item: Option<string>)

  /** One `<recipe>` element: its sub-elements' text, and every ingredient in document order. */
  datatype Recipe = Recipe(
    title: Option<string>,
    source: Option<string>,
    link: Option<string>,
    rating: Option<string>,
    category: Option<string>,
    image: Option<string>,
    instructions: Option<string>,
    modifications: Option<string>,
    ingredients: seq<Ingredient>)

  /** The paragraph styles: metadata line, subheading, body text, and the unstyled gap. */
  datatype Style = Small | Subheading | Body | Plain

  /** What the layout engine receives. */
  datatype Block =
    | Heading(text: string)
    | Para(style: Style, text: string)
    | Table(lines: seq<string>, hasImage: bool)
    | PageBreak
    | Spacer

  /** The run aborts at the first recipe without a title (`recipe.title.string` on a missing element). */
  datatype StoryError = MissingTitle(index: nat)

  const Br: string := "<br/>"
  /** The paragraph that separates recipes when there is no page break. */
  const Gap: string := "<br/><br/><br/>"
  const LinkHead: string := "<link href=\""
  const LinkMid: string := "\" color=\"blue\">"
  const LinkTail: string := "</link>"
  /** The metadata labels, in the order their fields appear. */
  const Labels: seq<string> := ["Quelle: ", "Link: ", "Bewertung: ", "Kategorie: "]

  // ---------------------------------------------------------------------
  // The metadata line

  /** The link fragment: an anchor to `url` whose visible text is `url` again. */
  function LinkMarkup(url: string): string
  {
    LinkHead + url + LinkMid + url + LinkTail
  }

  /** The link fragment shows the URL twice: once as the target, once as the visible text. */
  lemma LinkMarkupShape(url: string)
    ensures var m := LinkMarkup(url);
      && |m| == |LinkHead| + |LinkMid| + |LinkTail| + 2 * |url|
      && m[..|LinkHead|] == LinkHead && m[|m| - |LinkTail|..] == LinkTail
      && m[|LinkHead|..|LinkHead| + |url|] == url
      && m[|LinkHead| + |url|..|LinkHead| + |url| + |LinkMid|] == LinkMid
      && m[|LinkHead| + |url| + |LinkMid|..|m| - |LinkTail|] == url
  {
  }

  /** The texts shown after the four labels, in order: source, link markup, stars, category. */
  function Fields(r: Recipe): (fs: seq<Option<string>>)
    ensures |fs| == |Labels|
  {
    [ r.source,
      match r.link case None => None case Some(u) => Some(LinkMarkup(u)),
      match r.rating case None => None case Some(t) => Some(StarRating.Starify(t)),
      r.category ]
  }

  /** The fragment for field `k`: its label and text, or nothing when the field is missing. */
  function Fragment(fs: seq<Option<string>>, k: nat): seq<string>
    requires k < |fs| <= |Labels|
  {
    match fs[k]
    case None => []
    case Some(t) => [Labels[k] + t]
  }

  /** The fragments of fields `k` onwards. */
  function Labelled(fs: seq<Option<string>>, k: nat): seq<string>
    requires k <= |fs| <= |Labels|
    decreases |fs| - k
  {
    if k == |fs| then [] else Fragment(fs, k) + Labelled(fs, k + 1)
  }

  /** `topline`: the labelled fragments of the present fields. */
  function Topline(r: Recipe): seq<string>
  {
    Labelled(Fields(r), 0)
  }

  /** The metadata paragraph's text: the fragments joined with `<br/>`. */
  function MetadataLine(r: Recipe): string
  {
    Join(Br, Topline(r))
  }

  /** With four fields, the fragments are the four fields' fragments one after the other. */
  lemma LabelledUnfold(fs: seq<Option<string>>)
    requires |fs| == |Labels|
    ensures Labelled(fs, 0) == Fragment(fs, 0) + Fragment(fs, 1) + Fragment(fs, 2) + Fragment(fs, 3)
  {
    var f0, f1, f2, f3 := Fragment(fs, 0), Fragment(fs, 1), Fragment(fs, 2), Fragment(fs, 3);
    assert Labelled(fs, 4) == [];
    assert Labelled(fs, 3) == f3 by { assert f3 + [] == f3; }
    assert Labelled(fs, 1) == f1 + (f2 + f3);
    calc {
      Labelled(fs, 0);
      f0 + (f1 + (f2 + f3));
      { AppendAssoc(f1, f2, f3); }
      f0 + ((f1 + f2) + f3);
      { AppendAssoc(f0, f1 + f2, f3); AppendAssoc(f0, f1, f2); }
      f0 + f1 + f2 + f3;
    }
  }

  /** The numbers of the present fields from `k` on, in increasing order. */
  function Present(fs: seq<Option<string>>, k: nat): seq<nat>
    requires k <= |fs|
    decreases |fs| - k
  {
    if k == |fs| then [] else (if fs[k].Some? then [k] else []) + Present(fs, k + 1)
  }

  /** Each number is smaller than every later one. */
  predicate Increasing(p: seq<nat>)
  {
    forall i, j | 0 <= i < j < |p| :: p[i] < p[j]
  }

  /** Only present fields from `k` on are listed. */
  lemma {:induction false} PresentSound(fs: seq<Option<string>>, k: nat)
    requires k <= |fs|
    ensures forall i | 0 <= i < |Present(fs, k)| :: k <= Present(fs, k)[i] < |fs| && fs[Present(fs, k)[i]].Some?
    decreases |fs| - k
  {
    if k < |fs| {
      PresentSound(fs, k + 1);
      var rest, p := Present(fs, k + 1), Present(fs, k);
      if fs[k].Some? {
        assert p == [k] + rest;
        forall i | 0 <= i < |p| ensures k <= p[i] < |fs| && fs[p[i]].Some? {
          if i > 0 { assert p[i] == rest[i - 1]; }
        }
      } else {
        assert p == rest;
      }
    }
  }

  /** The listed fields are in increasing order. */
  lemma {:induction false} PresentSorted(fs: seq<Option<string>>, k: nat)
    requires k <= |fs|
    ensures Increasing(Present(fs, k))
    decreases |fs| - k
  {
    if k < |fs| {
      PresentSorted(fs, k + 1);
      PresentSound(fs, k + 1);
      var rest, p := Present(fs, k + 1), Present(fs, k);
      if fs[k].Some? {
        assert p == [k] + rest;
        forall i, j | 0 <= i < j < |p| ensures p[i] < p[j] {
          assert p[j] == rest[j - 1];
          if i > 0 { assert p[i] == rest[i - 1]; }
        }
      } else {
        assert p == rest;
      }
    }
  }

  /** Every present field from `k` on is listed. */
  lemma {:induction false} PresentComplete(fs: seq<Option<string>>, k: nat)
    requires k <= |fs|
    ensures forall m | k <= m < |fs| && fs[m].Some? :: m in Present(fs, k)
    decreases |fs| - k
  {
    if k < |fs| {
      PresentComplete(fs, k + 1);
      var rest, p := Present(fs, k + 1), Present(fs, k);
      assert p == (if fs[k].Some? then [k] else []) + rest;
      forall m | k <= m < |fs| && fs[m].Some? ensures m in p {
        if m > k { assert m in rest; }
      }
    }
  }

  /** The present fields from `k` on are listed, each once, in increasing order, and nothing else is. */
  lemma PresentFields(fs: seq<Option<string>>, k: nat)
    requires k <= |fs|
    ensures forall i | 0 <= i < |Present(fs, k)| :: k <= Present(fs, k)[i] < |fs| && fs[Present(fs, k)[i]].Some?
    ensures Increasing(Present(fs, k))
    ensures forall m | k <= m < |fs| :: fs[m].Some? <==> m in Present(fs, k)
  {
    PresentSound(fs, k);
    PresentSorted(fs, k);
    PresentComplete(fs, k);
  }

  /** The fragments `t` are, one for one, the label and text of the fields numbered by `p`. */
  predicate FragmentsMatch(fs: seq<Option<string>>, t: seq<string>, p: seq<nat>)
    requires |fs| <= |Labels|
  {
    && |t| == |p|
    && forall i | 0 <= i < |t| :: p[i] < |fs| && fs[p[i]].Some? && t[i] == Labels[p[i]] + fs[p[i]].value
  }

  /** A present field's fragment in front matches its number in front. */
  lemma MatchCons(fs: seq<Option<string>>, k: nat, t: seq<string>, p: seq<nat>)
    requires k < |fs| <= |Labels| && fs[k].Some? && FragmentsMatch(fs, t, p)
    ensures FragmentsMatch(fs, [Labels[k] + fs[k].value] + t, [k] + p)
  {
    var t', p' := [Labels[k] + fs[k].value] + t, [k] + p;
    forall i | 1 <= i < |t'| ensures t'[i] == t[i - 1] && p'[i] == p[i - 1] {}
  }

  /** The fragments from `k` on are, one for one, the label and text of each present field. */
  lemma {:induction false} LabelledPresent(fs: seq<Option<string>>, k: nat)
    requires k <= |fs| <= |Labels|
    ensures FragmentsMatch(fs, Labelled(fs, k), Present(fs, k))
    decreases |fs| - k
  {
    if k < |fs| {
      LabelledPresent(fs, k + 1);
      if fs[k].Some? {
        assert Labelled(fs, k) == [Labels[k] + fs[k].value] + Labelled(fs, k + 1);
        assert Present(fs, k) == [k] + Present(fs, k + 1);
        MatchCons(fs, k, Labelled(fs, k + 1), Present(fs, k + 1));
      } else {
        assert Labelled(fs, k) == Labelled(fs, k + 1) && Present(fs, k) == Present(fs, k + 1);
      }
    }
  }

  /**
   * The metadata fragments are exactly the present fields among source,
   * link, rating and category, each once, in that order, each its label
   * followed by the field's text.
   */
  lemma ToplineFields(r: Recipe)
    ensures |Topline(r)| == |Present(Fields(r), 0)|
    ensures forall i | 0 <= i < |Topline(r)| ::
      && Present(Fields(r), 0)[i] < 4 && Fields(r)[Present(Fields(r), 0)[i]].Some?
      && Topline(r)[i] == Labels[Present(Fields(r), 0)[i]] + Fields(r)[Present(Fields(r), 0)[i]].value
    ensures Increasing(Present(Fields(r), 0))
    ensures forall m | 0 <= m < 4 :: Fields(r)[m].Some? <==> m in Present(Fields(r), 0)
  {
    PresentFields(Fields(r), 0);
    LabelledPresent(Fields(r), 0);
  }

  /** Joined fragments are empty exactly when no field is present. */
  lemma LabelledEmpty(fs: seq<Option<string>>)
    requires |fs| <= |Labels|
    ensures Join(Br, Labelled(fs, 0)) == "" <==> forall m | 0 <= m < |fs| :: fs[m].None?
  {
    if forall m | 0 <= m < |fs| :: fs[m].None? {
      LabelledNone(fs, 0);
    } else {
      var m :| 0 <= m < |fs| && fs[m].Some?;
      LabelledSome(fs, m);
    }
  }

  /** With no field present from `k` on, there are no fragments. */
  lemma {:induction false} LabelledNone(fs: seq<Option<string>>, k: nat)
    requires k <= |fs| <= |Labels|
    requires forall m | k <= m < |fs| :: fs[m].None?
    ensures Labelled(fs, k) == []
    decreases |fs| - k
  {
    if k < |fs| {
      LabelledNone(fs, k + 1);
      assert Fragment(fs, k) == [];
    }
  }

  /** One present field makes the joined fragments non-empty. */
  lemma LabelledSome(fs: seq<Option<string>>, m: nat)
    requires m < |fs| <= |Labels| && fs[m].Some?
    ensures Join(Br, Labelled(fs, 0)) != ""
  {
    var t, p := Labelled(fs, 0), Present(fs, 0);
    PresentComplete(fs, 0);
    assert m in p;
    LabelledPresent(fs, 0);
    assert t[0] == Labels[p[0]] + fs[p[0]].value;
    assert Labels[p[0]] != [];
    JoinFirst(Br, t);
  }

  /** Each field is present exactly when the recipe has the corresponding element. */
  lemma FieldsPresent(r: Recipe)
    ensures var fs := Fields(r);
      && (fs[0].Some? <==> r.source.Some?) && (fs[1].Some? <==> r.link.Some?)
      && (fs[2].Some? <==> r.rating.Some?) && (fs[3].Some? <==> r.category.Some?)
  {
  }

  /** The metadata paragraph is empty exactly when none of the four fields is present. */
  lemma MetadataEmpty(r: Recipe)
    ensures MetadataLine(r) == "" <==>
      r.source.None? && r.link.None? && r.rating.None? && r.category.None?
  {
    var fs := Fields(r);
    LabelledEmpty(fs);
    FieldsPresent(r);
    assert (forall m | 0 <= m < |fs| :: fs[m].None?) <==> fs[0].None? && fs[1].None? && fs[2].None? && fs[3].None?;
  }

  // ---------------------------------------------------------------------
  // Ingredients and text sections

  /** A missing part formats as the empty string. */
  function Text(part: Option<string>): string
  {
    part.GetOr("")
  }

  /**
   * `'{} {} {}'.format(amount, unit, item)`: both separating spaces are
   * always there, whatever parts are missing.
   */
  function IngredientLine(ing: Ingredient): string
  {
    Text(ing.amount) + " " + Text(ing.unit) + " " + Text(ing.item)
  }

  /** The line is the three parts with a space after the amount and another after the unit. */
  lemma IngredientLineShape(ing: Ingredient)
    ensures var line, a, u, t := IngredientLine(ing), Text(ing.amount), Text(ing.unit), Text(ing.item);
      && |line| == |a| + |u| + |t| + 2
      && line[..|a|] == a && line[|a|] == ' '
      && line[|a| + 1..|a| + 1 + |u|] == u && line[|a| + 1 + |u|] == ' '
      && line[|a| + 2 + |u|..] == t
  {
  }

  /** When no part contains a space, splitting the line at spaces gives back the three parts. */
  lemma IngredientLineParts(ing: Ingredient)
    requires ' ' !in Text(ing.amount) && ' ' !in Text(ing.unit) && ' ' !in Text(ing.item)
    ensures Split(IngredientLine(ing), ' ') == [Text(ing.amount), Text(ing.unit), Text(ing.item)]
  {
    var xs := [Text(ing.amount), Text(ing.unit), Text(ing.item)];
    assert xs[..1] == [xs[0]] && xs[..2] == [xs[0], xs[1]];
    assert Join(" ", xs[..2]) == xs[0] + " " + xs[1];
    assert Join(" ", xs) == IngredientLine(ing);
    SplitJoin(xs, ' ');
  }

  /** An ingredient with only an item still carries the two leading spaces. */
  lemma IngredientOnlyItem(ing: Ingredient)
    requires ing.amount.None? && ing.unit.None? && ing.item.Some?
    ensures IngredientLine(ing) == "  " + ing.item.value
  {
  }

  /** The left column of the table: one line per ingredient, in input order. */
  function IngredientLines(ings: seq<Ingredient>): (lines: seq<string>)
    ensures |lines| == |ings|
    ensures forall i | 0 <= i < |ings| :: lines[i] == IngredientLine(ings[i])
  {
    seq(|ings|, i requires 0 <= i < |ings| => IngredientLine(ings[i]))
  }

  /** Instructions and notes with every newline turned into `<br/>`. */
  function SectionText(s: string): string
  {
    ReplaceChar(s, '\n', Br)
  }

  /**
   * No newline is left, and the text is the newline-separated lines joined
   * with `<br/>`; a text without newlines is kept as it is.
   */
  lemma SectionTextShape(s: string)
    ensures '\n' !in SectionText(s)
    ensures SectionText(s) == Join(Br, Split(s, '\n'))
    ensures '\n' !in s ==> SectionText(s) == s
  {
    ReplaceIsJoinOfSplit(s, '\n', Br);
  }

  /** An optional section: its subheading and its text, or nothing when the field is missing. */
  function Section(heading: string, field: Option<string>): seq<Block>
  {
    match field
    case None => []
    case Some(s) => [Para(Subheading, heading), Para(Body, SectionText(s))]
  }

  /** What ends a recipe: a page break, or the gap paragraph. */
  function Closer(pageBreak: bool): Block
  {
    if pageBreak then PageBreak else Para(Plain, Gap)
  }

  // ---------------------------------------------------------------------
  // One recipe's blocks

  /**
   * A recipe's blocks from its parts: heading, metadata paragraph,
   * "Zutaten", the ingredient table, the instructions and notes sections
   * when present, and the closer.
   */
  function Layout(title: string, meta: string, lines: seq<string>, hasImage: bool,
                  instructions: Option<string>, notes: Option<string>, pageBreak: bool): seq<Block>
  {
    [Heading(title), Para(Small, meta), Para(Subheading, "Zutaten"), Table(lines, hasImage)]
    + Section("Anweisungen", instructions)
    + Section("Notizen", notes)
    + [Closer(pageBreak)]
  }

  /** The sub-list of blocks for one titled recipe. */
  function RecipeBlocks(r: Recipe, pageBreak: bool): seq<Block>
    requires r.title.Some?
  {
    Layout(r.title.value, MetadataLine(r), IngredientLines(r.ingredients), r.image.Some?,
           r.instructions, r.modifications, pageBreak)
  }

  /** No block after the first is a heading. */
  predicate HeadingOnlyFirst(b: seq<Block>)
  {
    forall i | 1 <= i < |b| :: !b[i].Heading?
  }

  /**
   * The blocks `b` stand in the order of a recipe's layout: heading,
   * metadata paragraph, "Zutaten", ingredient table, then the instructions
   * and the notes section when present (instructions first), then the closer.
   */
  predicate Placed(b: seq<Block>, title: string, meta: string, lines: seq<string>, hasImage: bool,
                   instructions: Option<string>, notes: Option<string>, pageBreak: bool)
  {
    && |b| == 5 + (if instructions.Some? then 2 else 0) + (if notes.Some? then 2 else 0)
    && b[0] == Heading(title)
    && b[1] == Para(Small, meta)
    && b[2] == Para(Subheading, "Zutaten")
    && b[3] == Table(lines, hasImage)
    && (instructions.Some? ==>
          b[4] == Para(Subheading, "Anweisungen") && b[5] == Para(Body, SectionText(instructions.value)))
    && (notes.Some? ==>
          var m := if instructions.Some? then 6 else 4;
          b[m] == Para(Subheading, "Notizen") && b[m + 1] == Para(Body, SectionText(notes.value)))
    && b[|b| - 1] == Closer(pageBreak)
  }

  /** Each section subheading occurs exactly when its field is present, and the first block is the only heading. */
  predicate Sectioned(b: seq<Block>, instructions: Option<string>, notes: Option<string>)
  {
    && (Para(Subheading, "Anweisungen") in b <==> instructions.Some?)
    && (Para(Subheading, "Notizen") in b <==> notes.Some?)
    && HeadingOnlyFirst(b)
  }

  /** A layout puts each of its parts in its place. */
  lemma LayoutPositions(title: string, meta: string, lines: seq<string>, hasImage: bool,
                        instructions: Option<string>, notes: Option<string>, pageBreak: bool)
    ensures Placed(Layout(title, meta, lines, hasImage, instructions, notes, pageBreak),
                   title, meta, lines, hasImage, instructions, notes, pageBreak)
  {
    var s1, s2 := Section("Anweisungen", instructions), Section("Notizen", notes);
    var head := [Heading(title), Para(Small, meta), Para(Subheading, "Zutaten"), Table(lines, hasImage)];
    var b := Layout(title, meta, lines, hasImage, instructions, notes, pageBreak);
    assert b == head + s1 + s2 + [Closer(pageBreak)];
    assert b[..4] == head;
    assert b[4..4 + |s1|] == s1;
    assert b[4 + |s1|..4 + |s1| + |s2|] == s2;
  }

  /** A layout holds a section heading exactly when that section is present, and only one heading. */
  lemma LayoutMembers(title: string, meta: string, lines: seq<string>, hasImage: bool,
                      instructions: Option<string>, notes: Option<string>, pageBreak: bool)
    ensures Sectioned(Layout(title, meta, lines, hasImage, instructions, notes, pageBreak), instructions, notes)
  {
    var b := Layout(title, meta, lines, hasImage, instructions, notes, pageBreak);
    var s1, s2 := Section("Anweisungen", instructions), Section("Notizen", notes);
    var head := [Heading(title), Para(Small, meta), Para(Subheading, "Zutaten"), Table(lines, hasImage)];
    var n := 4 + |s1| + |s2|;
    assert b == head + s1 + s2 + [Closer(pageBreak)];
    var ins, notesHeading := Para(Subheading, "Anweisungen"), Para(Subheading, "Notizen");
    assert "Zutaten"[0] == 'Z' && "Notizen"[0] == 'N';
    forall i | 0 <= i < |b|
      ensures i >= 1 ==> !b[i].Heading?
      ensures b[i] == ins ==> instructions.Some?
      ensures b[i] == notesHeading ==> notes.Some?
    {
      if i < 4 {
        assert b[i] == head[i];
      } else if i < 4 + |s1| {
        assert b[i] == s1[i - 4];
      } else if i < n {
        assert b[i] == s2[i - 4 - |s1|];
      } else {
        assert b[i] == Closer(pageBreak);
      }
    }
    if instructions.Some? {
      assert b[4] == ins;
    }
    if notes.Some? {
      assert b[4 + |s1|] == notesHeading;
    }
  }

  /**
   * The shape of a recipe's sub-list: its parts are placed as in every
   * layout, "Anweisungen" and "Notizen" appear exactly when their fields
   * are present, the heading is the only heading, and there are 5, 7 or
   * 9 blocks, ending in a page break or the gap paragraph.
   */
  lemma RecipeBlocksShape(r: Recipe, pageBreak: bool)
    requires r.title.Some?
    ensures Placed(RecipeBlocks(r, pageBreak), r.title.value, MetadataLine(r), IngredientLines(r.ingredients),
                   r.image.Some?, r.instructions, r.modifications, pageBreak)
    ensures Sectioned(RecipeBlocks(r, pageBreak), r.instructions, r.modifications)
    ensures 5 <= |RecipeBlocks(r, pageBreak)| <= 9
    ensures RecipeBlocks(r, pageBreak)[|RecipeBlocks(r, pageBreak)| - 1] == if pageBreak then PageBreak else Para(Plain, Gap)
  {
    LayoutPositions(r.title.value, MetadataLine(r), IngredientLines(r.ingredients), r.image.Some?,
                    r.instructions, r.modifications, pageBreak);
    LayoutMembers(r.title.value, MetadataLine(r), IngredientLines(r.ingredients), r.image.Some?,
                  r.instructions, r.modifications, pageBreak);
  }

  /** The `topline` list of `create_pdf_doc`, built by the four conditional appends. */
  method BuildTopline(r: Recipe) returns (topline: seq<string>)
    ensures topline == Topline(r)
  {
    ghost var fs := Fields(r);
    FragmentsSpelled(r);
    topline := [];
    if r.source.Some? {
      topline := topline + ["Quelle: " + r.source.value];
    }
    assert topline == Fragment(fs, 0);
    ghost var t1 := topline;
    if r.link.Some? {
      topline := topline + ["Link: " + LinkMarkup(r.link.value)];
    }
    assert topline == t1 + Fragment(fs, 1);
    ghost var t2 := topline;
    if r.rating.Some? {
      topline := topline + ["Bewertung: " + StarRating.Starify(r.rating.value)];
    }
    assert topline == t2 + Fragment(fs, 2);
    ghost var t3 := topline;
    if r.category.Some? {
      topline := topline + ["Kategorie: " + r.category.value];
    }
    assert topline == t3 + Fragment(fs, 3);
    LabelledUnfold(fs);
  }

  /** Each field's fragment, with its label written out. */
  lemma FragmentsSpelled(r: Recipe)
    ensures Fragment(Fields(r), 0) == if r.source.Some? then ["Quelle: " + r.source.value] else []
    ensures Fragment(Fields(r), 1) == if r.link.Some? then ["Link: " + LinkMarkup(r.link.value)] else []
    ensures Fragment(Fields(r), 2) == if r.rating.Some? then ["Bewertung: " + StarRating.Starify(r.rating.value)] else []
    ensures Fragment(Fields(r), 3) == if r.category.Some? then ["Kategorie: " + r.category.value] else []
  {
  }

  /** The body of the loop in `create_pdf_doc`, building `substory` by appending. */
  method BuildSubstory(r: Recipe, pageBreak: bool) returns (substory: seq<Block>)
    requires r.title.Some?
    ensures substory == RecipeBlocks(r, pageBreak)
  {
    substory := [Heading(r.title.value)];
    var topline := BuildTopline(r);
    substory := substory + [Para(Small, Join(Br, topline))];
    var lines := IngredientLines(r.ingredients);
    substory := substory + [Para(Subheading, "Zutaten")];
    substory := substory + [Table(lines, r.image.Some?)];
    ghost var head := substory;
    assert head == [Heading(r.title.value), Para(Small, MetadataLine(r)),
                    Para(Subheading, "Zutaten"), Table(IngredientLines(r.ingredients), r.image.Some?)];
    if r.instructions.Some? {
      substory := substory + [Para(Subheading, "Anweisungen")];
      substory := substory + [Para(Body, SectionText(r.instructions.value))];
    }
    assert substory == head + Section("Anweisungen", r.instructions);
    ghost var withInstructions := substory;
    if r.modifications.Some? {
      substory := substory + [Para(Subheading, "Notizen")];
      substory := substory + [Para(Body, SectionText(r.modifications.value))];
    }
    assert substory == withInstructions + Section("Notizen", r.modifications);
    ghost var withNotes := substory;
    if pageBreak {
      substory := substory + [PageBreak];
    } else {
      substory := substory + [Para(Plain, Gap)];
    }
    assert substory == withNotes + [Closer(pageBreak)];
  }

  // ---------------------------------------------------------------------
  // The whole story

  predicate AllTitled(rs: seq<Recipe>)
  {
    forall i | 0 <= i < |rs| :: rs[i].title.Some?
  }

  /** The first recipe without a title, if any. */
  function FirstUntitled(rs: seq<Recipe>): (k: Option<nat>)
    ensures k.None? <==> AllTitled(rs)
    ensures k.Some? ==> k.value < |rs| && rs[k.value].title.None? && forall j | 0 <= j < k.value :: rs[j].title.Some?
  {
    if rs == [] then None
    else if rs[0].title.None? then Some(0)
    else
      match FirstUntitled(rs[1..])
      case None => None
      case Some(k) =>
        assert forall i | 1 <= i < |rs| :: rs[i] == rs[1..][i - 1];
        Some(k + 1)
  }

  /** The recipes' sub-lists, one after the other. */
  function Substories(rs: seq<Recipe>, pageBreak: bool): seq<Block>
    requires AllTitled(rs)
  {
    if rs == [] then []
    else Substories(rs[..|rs| - 1], pageBreak) + RecipeBlocks(rs[|rs| - 1], pageBreak)
  }

  /** The story `create_pdf_doc` hands to `doc.build`, or the error that stops it first. */
  function Story(rs: seq<Recipe>, pageBreak: bool): Result<seq<Block>, StoryError>
  {
    match FirstUntitled(rs)
    case Some(k) => Failure(MissingTitle(k))
    case None => Success([Spacer] + Substories(rs, pageBreak))
  }

  /** The loop of `create_pdf_doc`: start with one spacer and append each recipe's sub-list. */
  method CreateStory(recipes: seq<Recipe>, pageBreak: bool) returns (result: Result<seq<Block>, StoryError>)
    ensures result == Story(recipes, pageBreak)
  {
    var story := [Spacer];
    var i := 0;
    while i < |recipes|
      invariant 0 <= i <= |recipes|
      invariant AllTitled(recipes[..i])
      invariant story == [Spacer] + Substories(recipes[..i], pageBreak)
    {
      if recipes[i].title.None? {
        FirstUntitledAt(recipes, i);
        return Failure(MissingTitle(i));
      }
      var substory := BuildSubstory(recipes[i], pageBreak);
      StoryStep(recipes, i, pageBreak, story, substory);
      story := story + substory;
      i := i + 1;
    }
    assert recipes[..|recipes|] == recipes;
    return Success(story);
  }

  /** A titled recipe after titled ones extends the substories by its own sub-list. */
  lemma SubstoriesStep(rs: seq<Recipe>, i: nat, pageBreak: bool)
    requires i < |rs| && AllTitled(rs[..i]) && rs[i].title.Some?
    ensures AllTitled(rs[..i + 1])
    ensures Substories(rs[..i + 1], pageBreak) == Substories(rs[..i], pageBreak) + RecipeBlocks(rs[i], pageBreak)
  {
    var p := rs[..i + 1];
    assert p[..i] == rs[..i] && p[i] == rs[i];
    assert AllTitled(p) by {
      forall j | 0 <= j < |p| ensures p[j].title.Some? {
        if j < i { assert p[j] == rs[..i][j]; }
      }
    }
  }

  /** The loop step of `create_pdf_doc`: appending the next titled recipe's sub-list extends the story. */
  lemma StoryStep(rs: seq<Recipe>, i: nat, pageBreak: bool, story: seq<Block>, substory: seq<Block>)
    requires i < |rs| && AllTitled(rs[..i]) && rs[i].title.Some?
    requires story == [Spacer] + Substories(rs[..i], pageBreak)
    requires substory == RecipeBlocks(rs[i], pageBreak)
    ensures AllTitled(rs[..i + 1])
    ensures story + substory == [Spacer] + Substories(rs[..i + 1], pageBreak)
  {
    SubstoriesStep(rs, i, pageBreak);
    AppendAssoc([Spacer], Substories(rs[..i], pageBreak), substory);
  }

  /** Concatenation is associative; stated on its own so the story's contents stay out of the proof. */
  lemma AppendAssoc<T>(a: seq<T>, b: seq<T>, c: seq<T>)
    ensures (a + b) + c == a + (b + c)
  {
  }

  /** An untitled recipe after titled ones is the first untitled recipe. */
  lemma FirstUntitledAt(rs: seq<Recipe>, i: nat)
    requires i < |rs| && AllTitled(rs[..i]) && rs[i].title.None?
    ensures FirstUntitled(rs) == Some(i)
  {
    forall j | 0 <= j < i ensures rs[j].title.Some? {
      assert rs[..i][j] == rs[j];
    }
  }

  /** The story is built exactly when every recipe has a title; otherwise the error names the first that has none. */
  lemma StoryOutcome(rs: seq<Recipe>, pageBreak: bool)
    ensures Story(rs, pageBreak).Success? <==> AllTitled(rs)
    ensures Story(rs, pageBreak).Failure? ==>
      var k := Story(rs, pageBreak).error.index;
      k < |rs| && rs[k].title.None? && forall i | 0 <= i < k :: rs[i].title.Some?
  {
  }

  // ---------------------------------------------------------------------
  // Facts about the whole story

  /** The titles of titled recipes, in order. */
  function Titles(rs: seq<Recipe>): (ts: seq<string>)
    requires AllTitled(rs)
    ensures |ts| == |rs|
  {
    if rs == [] then [] else Titles(rs[..|rs| - 1]) + [rs[|rs| - 1].title.value]
  }

  /** The texts of the heading blocks, in order: the entries of the document outline. */
  function Headings(b: seq<Block>): seq<string>
  {
    if b == [] then []
    else Headings(b[..|b| - 1]) + (if b[|b| - 1].Heading? then [b[|b| - 1].text] else [])
  }

  /** The number of page breaks among the blocks. */
  function Breaks(b: seq<Block>): nat
  {
    if b == [] then 0
    else Breaks(b[..|b| - 1]) + (if b[|b| - 1] == PageBreak then 1 else 0)
  }

  lemma {:induction false} HeadingsAppend(a: seq<Block>, b: seq<Block>)
    ensures Headings(a + b) == Headings(a) + Headings(b)
    decreases |b|
  {
    if b != [] {
      var b', x := b[..|b| - 1], b[|b| - 1];
      assert (a + b)[..|a + b| - 1] == a + b';
      HeadingsAppend(a, b');
      var tail := if x.Heading? then [x.text] else [];
      assert Headings(a) + Headings(b') + tail == Headings(a) + (Headings(b') + tail);
    } else {
      assert a + b == a;
    }
  }

  lemma {:induction false} BreaksAppend(a: seq<Block>, b: seq<Block>)
    ensures Breaks(a + b) == Breaks(a) + Breaks(b)
    decreases |b|
  {
    if b != [] {
      assert (a + b)[..|a + b| - 1] == a + b[..|b| - 1];
      BreaksAppend(a, b[..|b| - 1]);
    } else {
      assert a + b == a;
    }
  }

  /**
   * The outline entries and page breaks of a layout, and so of each recipe's
   * sub-list: its title, and the closer's break exactly when breaking pages.
   */
  lemma LayoutOutline(title: string, meta: string, lines: seq<string>, hasImage: bool,
                      instructions: Option<string>, notes: Option<string>, pageBreak: bool)
    ensures Headings(Layout(title, meta, lines, hasImage, instructions, notes, pageBreak)) == [title]
    ensures Breaks(Layout(title, meta, lines, hasImage, instructions, notes, pageBreak)) == if pageBreak then 1 else 0
  {
    var head := [Heading(title), Para(Small, meta), Para(Subheading, "Zutaten"), Table(lines, hasImage)];
    var s1, s2 := Section("Anweisungen", instructions), Section("Notizen", notes);
    var last := [Closer(pageBreak)];
    HeadOutline(title, meta, lines, hasImage);
    SectionOutline("Anweisungen", instructions);
    SectionOutline("Notizen", notes);
    CloserOutline(pageBreak);
    HeadingsAppend(head, s1);
    HeadingsAppend(head + s1, s2);
    HeadingsAppend(head + s1 + s2, last);
    BreaksAppend(head, s1);
    BreaksAppend(head + s1, s2);
    BreaksAppend(head + s1 + s2, last);
  }

  lemma HeadOutline(title: string, meta: string, lines: seq<string>, hasImage: bool)
    ensures Headings([Heading(title), Para(Small, meta), Para(Subheading, "Zutaten"), Table(lines, hasImage)]) == [title]
    ensures Breaks([Heading(title), Para(Small, meta), Para(Subheading, "Zutaten"), Table(lines, hasImage)]) == 0
  {
    var rest := [Para(Small, meta), Para(Subheading, "Zutaten"), Table(lines, hasImage)];
    assert [Heading(title)] + rest == [Heading(title), Para(Small, meta), Para(Subheading, "Zutaten"), Table(lines, hasImage)];
    OutlineFree(rest);
    HeadingsAppend([Heading(title)], rest);
    BreaksAppend([Heading(title)], rest);
  }

  lemma SectionOutline(heading: string, field: Option<string>)
    ensures Headings(Section(heading, field)) == []
    ensures Breaks(Section(heading, field)) == 0
  {
    OutlineFree(Section(heading, field));
  }

  /** Blocks that are neither headings nor page breaks add nothing to the outline or the break count. */
  lemma {:induction false} OutlineFree(b: seq<Block>)
    requires forall i | 0 <= i < |b| :: !b[i].Heading? && !b[i].PageBreak?
    ensures Headings(b) == [] && Breaks(b) == 0
    decreases |b|
  {
    if b != [] {
      OutlineFree(b[..|b| - 1]);
    }
  }

  lemma CloserOutline(pageBreak: bool)
    ensures Headings([Closer(pageBreak)]) == []
    ensures Breaks([Closer(pageBreak)]) == if pageBreak then 1 else 0
  {
  }

  /** The outline of the recipes' sub-lists lists their titles in recipe order, and there is one page break per recipe. */
  lemma {:induction false} SubstoriesOutline(rs: seq<Recipe>, pageBreak: bool)
    requires AllTitled(rs)
    ensures Headings(Substories(rs, pageBreak)) == Titles(rs)
    ensures Breaks(Substories(rs, pageBreak)) == if pageBreak then |rs| else 0
    decreases |rs|
  {
    if rs != [] {
      var init, r := rs[..|rs| - 1], rs[|rs| - 1];
      SubstoriesOutline(init, pageBreak);
      LayoutOutline(r.title.value, MetadataLine(r), IngredientLines(r.ingredients), r.image.Some?,
                    r.instructions, r.modifications, pageBreak);
      HeadingsAppend(Substories(init, pageBreak), RecipeBlocks(r, pageBreak));
      BreaksAppend(Substories(init, pageBreak), RecipeBlocks(r, pageBreak));
    }
  }

  /**
   * A successful story's outline is the recipe titles in order, and it has
   * one page break per recipe when breaking pages and none otherwise.
   */
  lemma StoryOutline(rs: seq<Recipe>, pageBreak: bool)
    requires AllTitled(rs)
    ensures Story(rs, pageBreak).Success?
    ensures Headings(Story(rs, pageBreak).value) == Titles(rs)
    ensures Breaks(Story(rs, pageBreak).value) == if pageBreak then |rs| else 0
  {
    StorySuccess(rs, pageBreak);
    SubstoriesOutline(rs, pageBreak);
    LeadOutline(Spacer, Substories(rs, pageBreak));
  }

  /** A leading block that is neither a heading nor a page break leaves the outline and the break count as they are. */
  lemma LeadOutline(x: Block, b: seq<Block>)
    requires !x.Heading? && !x.PageBreak?
    ensures Headings([x] + b) == Headings(b)
    ensures Breaks([x] + b) == Breaks(b)
  {
    OutlineFree([x]);
    HeadingsAppend([x], b);
    BreaksAppend([x], b);
  }

  /** With every recipe titled, the story is the spacer followed by the sub-lists. */
  lemma StorySuccess(rs: seq<Recipe>, pageBreak: bool)
    requires AllTitled(rs)
    ensures Story(rs, pageBreak) == Success([Spacer] + Substories(rs, pageBreak))
  {
  }

  /** Each recipe contributes between 5 and 9 blocks. */
  lemma {:induction false} SubstoriesSize(rs: seq<Recipe>, pageBreak: bool)
    requires AllTitled(rs)
    ensures 5 * |rs| <= |Substories(rs, pageBreak)| <= 9 * |rs|
    decreases |rs|
  {
    if rs != [] {
      SubstoriesSize(rs[..|rs| - 1], pageBreak);
      RecipeBlocksShape(rs[|rs| - 1], pageBreak);
    }
  }

  /** A successful story starts with the spacer and holds 5 to 9 blocks per recipe after it. */
  lemma StorySize(rs: seq<Recipe>, pageBreak: bool)
    requires AllTitled(rs)
    ensures Story(rs, pageBreak).Success?
    ensures Story(rs, pageBreak).value[0] == Spacer
    ensures 1 + 5 * |rs| <= |Story(rs, pageBreak).value| <= 1 + 9 * |rs|
  {
    SubstoriesSize(rs, pageBreak);
  }

  /** The sub-lists of the first `k` recipes are a prefix of those of all recipes. */
  lemma {:induction false} SubstoriesPrefix(rs: seq<Recipe>, k: nat, pageBreak: bool)
    requires AllTitled(rs) && k <= |rs|
    ensures AllTitled(rs[..k])
    ensures Substories(rs[..k], pageBreak) <= Substories(rs, pageBreak)
    decreases |rs|
  {
    if k == |rs| {
      assert rs[..|rs|] == rs;
    } else {
      var init := rs[..|rs| - 1];
      assert init[..k] == rs[..k];
      SubstoriesPrefix(init, k, pageBreak);
    }
  }

  /**
   * Appending never changes earlier blocks: the story after the first `k`
   * recipes is a prefix of the finished story.
   */
  lemma StoryPrefix(rs: seq<Recipe>, k: nat, pageBreak: bool)
    requires AllTitled(rs) && k <= |rs|
    ensures AllTitled(rs[..k])
    ensures Story(rs, pageBreak).Success?
    ensures [Spacer] + Substories(rs[..k], pageBreak) <= Story(rs, pageBreak).value
  {
    SubstoriesPrefix(rs, k, pageBreak);
  }
}
