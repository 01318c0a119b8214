# gourmet2pdf — a Dafny model of the recipe-to-PDF story

gourmet2pdf turns a Gourmet recipe-manager XML export into a PDF recipe book.
This project models its core, `create_pdf_doc` and `starify_rating`.
`create_pdf_doc` walks the recipes and builds the *story*: the list of layout
blocks handed to the PDF layout engine. `starify_rating` turns a rating text
such as `7/10` into FontAwesome star glyphs.

Modules:

- `Wrappers`: the `Option` and `Result` types.
- `PyStr`: the Python string operations the code relies on. These are
  `str.split` on one character, `str.join`, `str.replace` of one character,
  `str.strip` (applied by `float()`) and character repetition. Split and join
  are proved inverse, and replace is proved to be join-of-split.
- `StarRating`: `starify_rating`.
  - The numerator is the text before the first `/`.
  - `float()` is modelled as a parser of plain decimal numerals. A parsed
    numeral is kept exactly, as its digit strings.
  - `int(rate)` truncates toward zero, so a negative rating gets no full
    stars. Repeating a string a negative number of times gives `''`.
  - The half star is the test `rate != int(rate)`, which holds when some
    fraction digit is non-zero.
  - An unparseable numerator is the caught `ValueError`. It gives the bare
    `<font>` wrapper.
- `PdfStory`: the recipe loop of `create_pdf_doc`.
  - A recipe is a record of its sub-elements' text, with `None` for a missing
    element.
  - A `Block` is what the layout engine receives: heading, styled paragraph,
    ingredient table, page break, or spacer.
  - `BuildTopline`, `BuildSubstory` and `CreateStory` are the source's
    append-by-append code, written as methods. Each is proved equal to a
    specification function: `Topline`, `RecipeBlocks` and `Story`.
  - Lemmas about these functions prove the following:
    - the metadata line holds exactly the present fields, labelled, in order;
    - a sub-list has 5, 7 or 9 blocks, in a fixed order;
    - the story's outline lists the titles in order;
    - there is one page break per recipe;
    - earlier blocks are never changed.

`PAGE_BREAK_AFTER_RECIPE` is the parameter `pageBreak`. A recipe without a
`<title>` makes the source fail on `recipe.title.string`. That abort is
modelled as `Failure(MissingTitle(i))` for the first such recipe.

Three behaviours of the code to note:

- The metadata paragraph is appended even when no field is present. It is
  then an empty paragraph.
- An ingredient line always has both separating spaces. A missing amount or
  unit leaves a leading or doubled space.
- Ingredients are flattened in document order. No group headers are emitted.

## Model

| member | source | states |
|---|---|---|
| `PyStr.Join` | gourmet2pdf.py:99 | `'<br/>'.join` of no pieces is empty, and of one piece is that piece |
| `PyStr.JoinFirst` | gourmet2pdf.py:99 | the joined text starts with the first piece, followed by the separator when more pieces follow |
| `PyStr.Split` | gourmet2pdf.py:49 | `split('/')` gives at least one piece, and no piece contains the separator |
| `PyStr.JoinSplit` | gourmet2pdf.py:49 | joining the pieces of a split with the split character gives back the text |
| `PyStr.SplitJoin` | gourmet2pdf.py:49 | splitting undoes joining when no piece contains the separator |
| `PyStr.ReplaceChar` | gourmet2pdf.py:121 | after `replace('\n', '<br/>')` no newline is left, and a text without newlines is unchanged |
| `PyStr.ReplaceIsJoinOfSplit` | gourmet2pdf.py:121 | replacing a character is joining, with the replacement, the pieces between its occurrences |
| `PyStr.Repeat` | gourmet2pdf.py:52 | `'' * n` is exactly `n` copies of the glyph |
| `PyStr.StripLeft` | gourmet2pdf.py:49 | `float()` drops exactly the leading whitespace (Python's `isspace` set) and stops at a non-space |
| `PyStr.StripRight` | gourmet2pdf.py:49 | `float()` drops exactly the trailing whitespace and stops at a non-space |
| `PyStr.StripTrimmed` | gourmet2pdf.py:49 | a text with no surrounding whitespace is its own strip |
| `StarRating.NumeratorShape` | gourmet2pdf.py:49 | `rating.split('/')[0]` has no `/`, and is the whole rating or stops just before the first `/` |
| `StarRating.TakeSignSound` | gourmet2pdf.py:49 | reading the optional sign of a numeral loses nothing, and leaves no sign unread |
| `StarRating.ParseBodySound` | gourmet2pdf.py:49 | a numeral body that reads is well formed, keeps its sign, and is exactly the text read |
| `StarRating.ParseNumeralSound` | gourmet2pdf.py:48-51 | whenever `float()` accepts the numerator, the result is a well-formed numeral whose text is the stripped numerator |
| `StarRating.ParseBodyOfBody` | gourmet2pdf.py:49 | a well-formed numeral's body reads back as that numeral |
| `StarRating.TakeSignOfFormat` | gourmet2pdf.py:49 | a formatted numeral's sign and body read back as written |
| `StarRating.FormatTrimmed` | gourmet2pdf.py:49 | a formatted numeral has no surrounding whitespace, so stripping leaves it unchanged |
| `StarRating.ParseFormat` | gourmet2pdf.py:48-51 | round trip: every well-formed numeral, written out, parses back to itself |
| `StarRating.DigitsValueConcat` | gourmet2pdf.py:49 | the value of concatenated digit strings is the first value shifted left by the second's length, plus the second value |
| `StarRating.DigitsValueBound` | gourmet2pdf.py:52 | a digit string's value is below ten to the power of its length |
| `StarRating.DigitsValueZero` | gourmet2pdf.py:53 | a digit string's value is zero exactly when every digit is `0` |
| `StarRating.NumeralValue` | gourmet2pdf.py:52-53 | a numeral's whole part is the integer part of its exact value `N / D`, and a non-zero fraction digit appears exactly when `N / D` is not whole |
| `StarRating.NumeralFloor` | gourmet2pdf.py:52 | the exact value lies between the whole part and the whole part plus one |
| `StarRating.NumeralHalf` | gourmet2pdf.py:53 | `rate != int(rate)` holds exactly when the exact value differs from the scaled whole part |
| `StarRating.StarCount` | gourmet2pdf.py:47-53 | for a parsed numerator, the star count is the integer part of its value (zero when negative), and the half star appears exactly when the value is not whole; no upper bound on the count is modelled (see Left out) |
| `StarRating.StarMarkupShape` | gourmet2pdf.py:52-54 | the output is the `<font face="FontAwesome">` element with the full stars and then at most one half star, after all full stars |
| `StarRating.ParseNumeral` | gourmet2pdf.py:49 | `float()` on the numerator, restricted to plain decimal numerals; its contract is stated by `ParseNumeralSound` (an accepted text is a well-formed numeral written as the stripped text) and `ParseFormat` (every well-formed numeral is accepted back) |
| `StarRating.Starify` | gourmet2pdf.py:45-54 | `starify_rating`; its contract is stated by `StarifyShape` (the `<font>` wrapper around `FullStars` full stars and then a half star exactly when `HasHalf`) and `StarifyUnparseable` (an unreadable numerator gives the bare wrapper) |
| `StarRating.StarifyShape` | gourmet2pdf.py:45-54 | whenever `starify_rating` returns, its result is the `<font>` wrapper with `FullStars` full stars, then a half star exactly when `HasHalf`; the overflow for huge star counts is not modelled (see Left out) |
| `StarRating.StarifyUnparseable` | gourmet2pdf.py:47-54 | an unparseable numerator yields no stars and exactly `<font face="FontAwesome"></font>`, with no error |
| `StarRating.StarMarkupBare` | gourmet2pdf.py:54 | with no stars the output is just the two font tags |
| `PdfStory.LinkMarkupShape` | gourmet2pdf.py:87 | the link fragment is an anchor whose target and whose visible text are both the URL |
| `PdfStory.PresentFields` | gourmet2pdf.py:95-98 | the present fields are listed once each, in increasing order, and no other field is listed |
| `PdfStory.LabelledPresent` | gourmet2pdf.py:95-98 | the fragments are, one for one, the label and text of each present field |
| `PdfStory.ToplineFields` | gourmet2pdf.py:94-98 | `topline` holds exactly the present fields among source, link, rating and category, in that order, each written as `Quelle: `, `Link: `, `Bewertung: ` or `Kategorie: ` followed by its text |
| `PdfStory.LabelledEmpty` | gourmet2pdf.py:99 | the joined fragments are empty exactly when no field is present |
| `PdfStory.MetadataEmpty` | gourmet2pdf.py:94-99 | the metadata paragraph's text is empty exactly when the recipe has no source, link, rating or category |
| `PdfStory.FieldsPresent` | gourmet2pdf.py:95-98 | each metadata field is present exactly when the recipe has the matching element |
| `PdfStory.BuildTopline` | gourmet2pdf.py:94-98 | the four conditional appends build exactly `Topline(r)` |
| `PdfStory.IngredientLineShape` | gourmet2pdf.py:101-103 | an ingredient line is amount, space, unit, space, item, with a missing part written as the empty string |
| `PdfStory.IngredientLineParts` | gourmet2pdf.py:101-103 | when no part contains a space, splitting the line at spaces gives back the three parts |
| `PdfStory.IngredientOnlyItem` | gourmet2pdf.py:101-103 | an ingredient with only an item still has both leading spaces |
| `PdfStory.IngredientLines` | gourmet2pdf.py:101-104 | one line per ingredient, in input order |
| `PdfStory.SectionTextShape` | gourmet2pdf.py:121-122 | an instructions or notes text has no newline left, and is its lines joined with `<br/>` |
| `PdfStory.LayoutPositions` | gourmet2pdf.py:90-131 | `Placed`: heading, metadata, "Zutaten", table, then the instructions and notes sections when present (instructions first), then the closer, with the length that follows |
| `PdfStory.LayoutMembers` | gourmet2pdf.py:119-126 | `Sectioned`: a section subheading occurs exactly when its field is present, and no block after the first is a heading |
| `PdfStory.RecipeBlocksShape` | gourmet2pdf.py:90-131 | a titled recipe's sub-list is `Placed` and `Sectioned` with the recipe's own title, metadata line, ingredient lines and sections, has 5 to 9 blocks, and ends in a page break or the `<br/><br/><br/>` paragraph as `pageBreak` says |
| `PdfStory.BuildSubstory` | gourmet2pdf.py:90-131 | the loop body's appends build exactly `RecipeBlocks(r, pageBreak)` |
| `PdfStory.FirstUntitled` | gourmet2pdf.py:89-91 | there is no untitled recipe exactly when all are titled; otherwise the result is the first untitled recipe, and all earlier recipes are titled |
| `PdfStory.CreateStory` | gourmet2pdf.py:86-132 | the loop returns exactly `Story(recipes, pageBreak)`: the spacer followed by each sub-list, or the error at the first untitled recipe |
| `PdfStory.SubstoriesStep` | gourmet2pdf.py:132 | a titled recipe after titled ones extends the sub-lists by its own |
| `PdfStory.StoryStep` | gourmet2pdf.py:132 | `story = story + substory` keeps the story equal to the spacer followed by the processed recipes' sub-lists |
| `PdfStory.FirstUntitledAt` | gourmet2pdf.py:91 | an untitled recipe after titled ones is the first untitled recipe |
| `PdfStory.StoryOutcome` | gourmet2pdf.py:89-91 | the story is built exactly when every recipe has a title; otherwise the error names the first recipe without one |
| `PdfStory.StorySuccess` | gourmet2pdf.py:86-132 | with every recipe titled, the story is the spacer followed by the sub-lists |
| `PdfStory.HeadingsAppend` | gourmet2pdf.py:132 | the outline of concatenated blocks is the outline of the first part followed by that of the second |
| `PdfStory.BreaksAppend` | gourmet2pdf.py:132 | page breaks add up over concatenation |
| `PdfStory.OutlineFree` | gourmet2pdf.py:99-126 | paragraphs, tables and spacers add no outline entry and no page break |
| `PdfStory.LayoutOutline` | gourmet2pdf.py:91-131 | a recipe's blocks have its title as their one outline entry, and one page break exactly when breaking pages |
| `PdfStory.SubstoriesOutline` | gourmet2pdf.py:89-132 | the sub-lists' headings are the recipe titles in order, and there are as many page breaks as recipes when breaking pages |
| `PdfStory.StoryOutline` | gourmet2pdf.py:86-132 | the story's outline is the recipe titles in order, with one page break per recipe (none without page breaks) |
| `PdfStory.SubstoriesSize` | gourmet2pdf.py:89-132 | each recipe contributes between 5 and 9 blocks |
| `PdfStory.StorySize` | gourmet2pdf.py:86-132 | the story starts with the spacer and has between `1 + 5n` and `1 + 9n` blocks for `n` recipes |
| `PdfStory.SubstoriesPrefix` | gourmet2pdf.py:132 | the sub-lists of the first `k` recipes are a prefix of those of all recipes |
| `PdfStory.StoryPrefix` | gourmet2pdf.py:132 | appending never changes earlier blocks: the story after `k` recipes is a prefix of the finished story |

## Left out

- Reading the XML file (`parse_xml_file`, lines 136-140) is not modelled. The input is the list of recipe records that BeautifulSoup's `find_all('recipe')` would yield. Each record holds its sub-elements' text.
- `.string` of an element with several children is `None` in the source. The heading would then read `None`, and `.replace` would fail on instructions or notes. Present elements are modelled as having text.
- The ingredient line formats the amount, unit and item element objects themselves. `Ingredient` holds, for each part, the text that formatting inserts. How an element renders as text is not modelled.
- `StarRating.ParseNumeral`: `float()` also accepts exponents, `_` digit separators, `inf`, `nan` and non-ASCII digits. These read as unparseable here. For `inf` and `nan` the source's `int(rate)` raises outside the `try`, which the model does not capture.
- `StarRating.StarCount`: no upper bound on the star count is modelled. In the source, `'\uf005' * int(rate)` (line 52) raises OverflowError when the whole part exceeds `sys.maxsize` (for example `10000000000000000000/10`), and a count far below that already runs out of memory. That line is outside the `try`, so the whole run aborts. The model emits that many stars instead.
- `StarRating.StarifyShape`: the function returns for every rating, so it does not capture the OverflowError or MemoryError that huge star counts raise in the source, nor the error `int(rate)` raises for `inf` and `nan`.
- `PdfStory.CreateStory`: the only abort modelled is a missing title. The run also aborts on a rating whose star count overflows (see `StarRating.StarCount`), and the model builds the story in that case.
- `StarRating.StarCount`: the value is exact decimal arithmetic. The rounding of binary doubles is not modelled, so a numeral with more than about 17 significant digits can round differently in the source.
- The diagnostic `print` on an unparseable rating (line 51) is I/O and is left out.
- Base64 decoding of the image and its sizing and alignment (lines 105-108) are not modelled. The table records only whether an image is present. A missing image is the empty paragraph.
- Paragraph styles, the table style (lines 79-84, 112-116), `doc.build` (line 133) and the page callbacks (lines 57-74) are layout-engine rendering. Only the blocks handed to the engine are modelled.
- `Heading.draw` (lines 33-42) adds the bookmark and outline entry while drawing. The model has `Headings`, the list of heading texts the outline would show.
- Font registration (line 78) and the `__main__` entry point (lines 143-146) are I/O.
