/** Layout regions and their categories (scribo.hpp, DOMCategory). */
module Layout {
  import opened Geometry
  import opened Wrappers

  datatype DOMCategory =
    | PAGE
    | TITLE_LEVEL_1
    | TITLE_LEVEL_2
    | SECTION_LEVEL_1
    | SECTION_LEVEL_2
    | COLUMN_LEVEL_1
    | COLUMN_LEVEL_2
    | ENTRY
    | LINE

  /** A region of the flat arena: `parentId` is the index of the enclosing region
      (-1 for the page) and `maskInstanceId` the label of a LINE (-1 otherwise). */
  datatype LayoutRegion = LayoutRegion(bbox: Box, category: DOMCategory, parentId: int, maskInstanceId: int)

  /** The name the Python binding gives each category. */
  function CategoryName(c: DOMCategory): string
  {
    match c
    case PAGE => "PAGE"
    case TITLE_LEVEL_1 => "TITLE_LEVEL_1"
    case TITLE_LEVEL_2 => "TITLE_LEVEL_2"
    case SECTION_LEVEL_1 => "SECTION_LEVEL_1"
    case SECTION_LEVEL_2 => "SECTION_LEVEL_2"
    case COLUMN_LEVEL_1 => "COLUMN_LEVEL_1"
    case COLUMN_LEVEL_2 => "COLUMN_LEVEL_2"
    case ENTRY => "ENTRY"
    case LINE => "LINE"
  }

  /** `getattr(DOMCategory, name)`: the category of that name, if any. */
  function CategoryOf(name: string): (r: Option<DOMCategory>)
    ensures r.Some? ==> CategoryName(r.value) == name
  {
    if name == "PAGE" then Some(PAGE)
    else if name == "TITLE_LEVEL_1" then Some(TITLE_LEVEL_1)
    else if name == "TITLE_LEVEL_2" then Some(TITLE_LEVEL_2)
    else if name == "SECTION_LEVEL_1" then Some(SECTION_LEVEL_1)
    else if name == "SECTION_LEVEL_2" then Some(SECTION_LEVEL_2)
    else if name == "COLUMN_LEVEL_1" then Some(COLUMN_LEVEL_1)
    else if name == "COLUMN_LEVEL_2" then Some(COLUMN_LEVEL_2)
    else if name == "ENTRY" then Some(ENTRY)
    else if name == "LINE" then Some(LINE)
    else None
  }

  /** Looking a category up by its name gives it back, so names are distinct. */
  lemma CategoryNameRoundTrip(c: DOMCategory)
    ensures CategoryOf(CategoryName(c)) == Some(c)
  {
  }

  lemma CategoryNameInjective(c: DOMCategory, d: DOMCategory)
    requires CategoryName(c) == CategoryName(d)
    ensures c == d
  {
    CategoryNameRoundTrip(c);
    CategoryNameRoundTrip(d);
  }
}
