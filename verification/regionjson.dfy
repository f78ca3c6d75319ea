/** The dictionary form of a layout region in the Python layer (scribo.py):
    `LayoutRegion.to_json` and `LayoutRegion.from_json`. A Python region is
    the C++ record together with the instance dictionary `__dict__` that the
    binding's dynamic attributes allow. */
module RegionJson {
  import opened Wrappers
  import opened Geometry
  import opened Layout
  import opened Text

  /** The values a region dictionary holds: integers, strings and sequences
      (a tuple, or the list JSON reads it back as). */
  datatype PyValue =
    | Int(n: int)
    | Str(s: string)
    | Items(items: seq<PyValue>)

  type Dict = map<string, PyValue>

  /** A region seen from Python: the C++ fields and the dynamic attributes. */
  datatype PyRegion = PyRegion(region: LayoutRegion, attrs: Dict)

  /** The exceptions `from_json` lets escape. */
  datatype JsonError =
    | KeyError(key: string)        // "box" or "type" is missing
    | ValueError                   // a box that does not unpack into four values, or an int() that fails
    | TypeError                    // a value of the wrong kind, or an int that does not fit a C++ int
    | NoSuchCategory(name: string) // getattr(DOMCategory, name) finds no category

  /** The keys `to_json` writes and `from_json` pops. */
  const Reserved: set<string> := {"box", "type", "parent"}

  const IntMin: int := -0x8000_0000
  const IntMax: int := 0x7fff_ffff

  /** The tuple (x, y, width, height). */
  function BoxValue(b: Box): PyValue
  {
    Items([Int(b.x), Int(b.y), Int(b.width), Int(b.height)])
  }

  /** LayoutRegion.to_json: a copy of the dynamic attributes with "box",
      "type" and "parent" written over them. The mask instance id is a field
      of the C++ record, not of `__dict__`, so it is not written. */
  function ToJson(r: PyRegion): (d: Dict)
    ensures d.Keys == r.attrs.Keys + Reserved
    ensures d["box"] == BoxValue(r.region.bbox)
    ensures d["type"] == Str(CategoryName(r.region.category))
    ensures d["parent"] == Int(r.region.parentId)
    ensures forall k :: k in r.attrs && k !in Reserved ==> d[k] == r.attrs[k]
  {
    r.attrs["box" := BoxValue(r.region.bbox)]["type" := Str(CategoryName(r.region.category))]["parent" := Int(r.region.parentId)]
  }

  /** Python's `int(v)` on the values modelled: an integer is itself, a string
      is read as an optional sign and decimal digits, anything else raises. */
  function PyInt(v: PyValue): (r: Result<int, JsonError>)
    ensures v.Int? ==> r == Ok(v.n)
    ensures v.Items? ==> r == Err(TypeError)
  {
    match v
    case Int(n) => Ok(n)
    case Str(s) =>
      if IsNumber(s) then Ok(Value(s))
      else if |s| >= 1 && (s[0] == '-' || s[0] == '+') && IsNumber(s[1..]) then
        var m: int := Value(s[1..]);
        Ok(if s[0] == '-' then -m else m)
      else Err(ValueError)
    case Items(_) => Err(TypeError)
  }

  /** The binding's conversion of a Python int into a C++ `int` field: a value
      that does not fit 32 bits is refused. */
  function StoreInt(v: PyValue): (r: Result<int, JsonError>)
    ensures r.Ok? <==> v.Int? && IntMin <= v.n <= IntMax
    ensures r.Ok? ==> r.value == v.n
  {
    if v.Int? && IntMin <= v.n <= IntMax then Ok(v.n) else Err(TypeError)
  }

  /** `(bx, by, bw, bh) = v`: a sequence or a string of exactly four items. */
  function Unpack4(v: PyValue): (r: Result<seq<PyValue>, JsonError>)
    ensures r.Ok? ==> |r.value| == 4
    ensures v.Items? ==> (r.Ok? <==> |v.items| == 4)
  {
    match v
    case Items(items) => if |items| == 4 then Ok(items) else Err(ValueError)
    case Str(s) => if |s| == 4 then Ok([Str([s[0]]), Str([s[1]]), Str([s[2]]), Str([s[3]])]) else Err(ValueError)
    case Int(_) => Err(TypeError)
  }

  /** `int()` of each of the four items. The tuple `(int(bx), int(by),
      int(bw), int(bh))` is built whole before any field is assigned, so
      the first item that does not convert decides the error. */
  function ConvertAll(q: seq<PyValue>): (r: Result<seq<int>, JsonError>)
    ensures r.Ok? <==> forall j :: 0 <= j < |q| ==> PyInt(q[j]).Ok?
    ensures r.Ok? ==> |r.value| == |q| && forall j :: 0 <= j < |q| ==> r.value[j] == PyInt(q[j]).value
    ensures forall i :: 0 <= i < |q| && PyInt(q[i]).Err? && (forall j :: 0 <= j < i ==> PyInt(q[j]).Ok?) ==>
              r == Err(PyInt(q[i]).error)
  {
    if |q| == 0 then Ok([])
    else
      match PyInt(q[0])
      case Err(e) => Err(e)
      case Ok(n) =>
        match ConvertAll(q[1..])
        case Err(e) =>
          assert forall i :: 1 <= i < |q| ==> q[1..][i - 1] == q[i];
          Err(e)
        case Ok(ns) => Ok([n] + ns)
  }

  /** The assignments to x, y, width and height, in that order, of values
      already converted: each must fit a C++ int. */
  function StoreBox(ns: seq<int>): (r: Result<Box, JsonError>)
    requires |ns| == 4
    ensures r.Ok? <==> forall j :: 0 <= j < 4 ==> IntMin <= ns[j] <= IntMax
    ensures r.Ok? ==> r.value == Box(ns[0], ns[1], ns[2], ns[3])
    ensures r.Err? ==> r == Err(TypeError)
  {
    match StoreInt(Int(ns[0]))
    case Err(e) => Err(e)
    case Ok(x) =>
      match StoreInt(Int(ns[1]))
      case Err(e) => Err(e)
      case Ok(y) =>
        match StoreInt(Int(ns[2]))
        case Err(e) => Err(e)
        case Ok(w) =>
          match StoreInt(Int(ns[3]))
          case Err(e) => Err(e)
          case Ok(h) => Ok(Box(x, y, w, h))
  }

  /** `(bx, by, bw, bh) = x.pop("box")`, then the four conversions, then the
      four assignments: no field is stored before every item has converted. */
  function ReadBox(v: PyValue): (r: Result<Box, JsonError>)
    ensures v.Int? ==> r == Err(TypeError)
    ensures v.Items? && |v.items| != 4 ==> r == Err(ValueError)
    ensures Unpack4(v).Ok? && ConvertAll(Unpack4(v).value).Err? ==> r == Err(ConvertAll(Unpack4(v).value).error)
    ensures Unpack4(v).Ok? && ConvertAll(Unpack4(v).value).Ok? ==> r == StoreBox(ConvertAll(Unpack4(v).value).value)
    ensures forall b: Box ::
      (v == BoxValue(b) && IntMin <= b.x <= IntMax && IntMin <= b.y <= IntMax
       && IntMin <= b.width <= IntMax && IntMin <= b.height <= IntMax) ==> r == Ok(b)
  {
    match Unpack4(v)
    case Err(e) => Err(e)
    case Ok(q) =>
      match ConvertAll(q)
      case Err(e) => Err(e)
      case Ok(ns) => StoreBox(ns)
  }

  /** The first item of the box that `int()` refuses decides the error, even
      when an earlier item would not fit a C++ int. */
  lemma ReadBoxConvertsBeforeStoring(q: seq<PyValue>, i: nat)
    requires |q| == 4 && i < 4
    requires forall j :: 0 <= j < i ==> PyInt(q[j]).Ok?
    requires PyInt(q[i]).Err?
    ensures ReadBox(Items(q)) == Err(PyInt(q[i]).error)
  {
  }

  /** When every item converts, the box is read iff every value fits a C++
      int, and is then the box of those values. */
  lemma ReadBoxStoresConverted(q: seq<PyValue>)
    requires |q| == 4 && forall j :: 0 <= j < 4 ==> PyInt(q[j]).Ok?
    ensures ReadBox(Items(q)).Ok? <==> forall j :: 0 <= j < 4 ==> IntMin <= PyInt(q[j]).value <= IntMax
    ensures ReadBox(Items(q)).Ok? ==> ReadBox(Items(q)).value == Box(PyInt(q[0]).value, PyInt(q[1]).value, PyInt(q[2]).value, PyInt(q[3]).value)
    ensures ReadBox(Items(q)).Err? ==> ReadBox(Items(q)) == Err(TypeError)
  {
  }

  /** An item too wide for an int followed by one that is not a number: the
      ValueError of `int("a")` is raised, not the TypeError of the store. */
  lemma ReadBoxValueErrorFirst()
    ensures ReadBox(Items([Int(0x1_0000_0000), Str("a"), Int(0), Int(0)])) == Err(ValueError)
  {
    ReadBoxConvertsBeforeStoring([Int(0x1_0000_0000), Str("a"), Int(0), Int(0)], 1);
  }

  /** Names that `getattr` finds on the enum class itself without naming a
      category: the `name` and `value` properties, the class documentation
      and the `__members__` table. Assigning any of them to `type` fails
      the binding's conversion to a `DOMCategory`. */
  const EnumAttributes: set<string> := {"name", "value", "__doc__", "__members__"}

  /** `getattr(scribocxx.DOMCategory, name)` followed by the assignment to
      `type`: the name must be a string naming a category. */
  function ReadCategory(v: PyValue): (r: Result<DOMCategory, JsonError>)
    ensures r.Ok? ==> v == Str(CategoryName(r.value))
    ensures forall c :: v == Str(CategoryName(c)) ==> r == Ok(c)
    ensures !v.Str? ==> r == Err(TypeError)
    ensures v.Str? && v.s in EnumAttributes ==> r == Err(TypeError)
    ensures v.Str? && v.s !in EnumAttributes && r.Err? ==> r == Err(NoSuchCategory(v.s))
  {
    match v
    case Str(name) =>
      if name in EnumAttributes then
        assert forall c :: CategoryName(c) != name;
        Err(TypeError)
      else
        (match CategoryOf(name)
         case None => Err(NoSuchCategory(name))
         case Some(c) => CategoryNameRoundTrip(c); Ok(c))
    case _ => Err(TypeError)
  }

  /** LayoutRegion.from_json(x): the new region, and `x` as the call leaves
      it. "box" and "type" are popped and must be there; "parent" is popped
      when it is there and -1 otherwise; whatever remains becomes the new
      region's dynamic attributes. The mask instance id keeps the default
      -1 of a new region. */
  function FromJson(x: Dict): (r: Result<(PyRegion, Dict), JsonError>)
    ensures "box" !in x ==> r == Err(KeyError("box"))
    ensures "box" in x && ReadBox(x["box"]).Err? ==> r == Err(ReadBox(x["box"]).error)
    ensures "box" in x && ReadBox(x["box"]).Ok? && "type" !in x ==> r == Err(KeyError("type"))
    ensures "box" in x && ReadBox(x["box"]).Ok? && "type" in x && ReadCategory(x["type"]).Err? ==>
              r == Err(ReadCategory(x["type"]).error)
    ensures ("box" in x && ReadBox(x["box"]).Ok? && "type" in x && ReadCategory(x["type"]).Ok?
             && "parent" in x && StoreInt(x["parent"]).Err?) ==>
              r == Err(StoreInt(x["parent"]).error)
    ensures r.Ok? <==>
              ("box" in x && ReadBox(x["box"]).Ok? && "type" in x && ReadCategory(x["type"]).Ok?
               && ("parent" !in x || StoreInt(x["parent"]).Ok?))
    ensures r.Ok? ==> r.value.1 == x - Reserved && r.value.0.attrs == x - Reserved
    ensures r.Ok? ==> "type" in x && Str(CategoryName(r.value.0.region.category)) == x["type"]
    ensures r.Ok? ==> if "parent" in x then x["parent"] == Int(r.value.0.region.parentId) else r.value.0.region.parentId == -1
    ensures r.Ok? ==> r.value.0.region.maskInstanceId == -1
  {
    if "box" !in x then Err(KeyError("box"))
    else
      var x1 := x - {"box"};
      match ReadBox(x["box"])
      case Err(e) => Err(e)
      case Ok(b) =>
        if "type" !in x1 then Err(KeyError("type"))
        else
          var x2 := x1 - {"type"};
          match ReadCategory(x1["type"])
          case Err(e) => Err(e)
          case Ok(c) =>
            var x3 := x2 - {"parent"};
            match StoreInt(if "parent" in x2 then x2["parent"] else Int(-1))
            case Err(e) => Err(e)
            case Ok(p) =>
              assert x3 == x - Reserved;
              Ok((PyRegion(LayoutRegion(b, c, p, -1), x3), x3))
  }

  // ---------------------------------------------------------------------------
  // Properties

  /** A region whose numbers fit the C++ fields. */
  predicate Storable(r: LayoutRegion)
  {
    && IntMin <= r.bbox.x <= IntMax && IntMin <= r.bbox.y <= IntMax
    && IntMin <= r.bbox.width <= IntMax && IntMin <= r.bbox.height <= IntMax
    && IntMin <= r.parentId <= IntMax
  }

  /** `from_json(to_json(r))` restores the box, the category, the parent and
      the dynamic attributes when none of those is named like a reserved
      key; the mask instance id is not carried and comes back as -1. The
      dictionary handed over is left holding only the dynamic attributes. */
  lemma RoundTrip(r: PyRegion)
    requires Storable(r.region)
    requires forall k :: k in r.attrs ==> k !in Reserved
    ensures FromJson(ToJson(r)) == Ok((PyRegion(r.region.(maskInstanceId := -1), r.attrs), r.attrs))
  {
    var d := ToJson(r);
    assert d - Reserved == r.attrs;
  }

  /** A dynamic attribute named like a reserved key does not survive: the
      serialised value is the region's own. */
  lemma ReservedAttributeIsOverwritten(r: PyRegion, v: PyValue)
    requires "box" in r.attrs && r.attrs["box"] == v && v != BoxValue(r.region.bbox)
    ensures ToJson(r)["box"] != v
  {
  }

  /** `to_json(from_json(d))` is `d` again when `d` holds a storable box as
      four integers, a category name and a parent. */
  lemma FromJsonThenToJson(d: Dict, b: Box, c: DOMCategory, p: int)
    requires Storable(LayoutRegion(b, c, p, -1))
    requires "box" in d && d["box"] == BoxValue(b)
    requires "type" in d && d["type"] == Str(CategoryName(c))
    requires "parent" in d && d["parent"] == Int(p)
    ensures FromJson(d).Ok? && ToJson(FromJson(d).value.0) == d
  {
    var r := FromJson(d);
    assert r.Ok?;
    var back := ToJson(r.value.0);
    assert back.Keys == d.Keys;
  }

  /** A box given as text is unpacked character by character. */
  lemma BoxFromText()
    ensures ReadBox(Str("1234")) == Ok(Box(1, 2, 3, 4))
  {
    assert IsNumber("1") && Value("1") == 1;
    assert IsNumber("2") && Value("2") == 2;
    assert IsNumber("3") && Value("3") == 3;
    assert IsNumber("4") && Value("4") == 4;
  }
}
