/** The two argument checks of the batch command-line tool (batch_process.py):
    the `-p` page-list action `PageParserAction` and the output-name check
    `__checkSuffix`. Digits are the ASCII ones; paths are POSIX paths. */
module BatchPages {
  import opened Wrappers
  import opened Text

  /** argparse.ArgumentTypeError and its message. */
  datatype ArgumentError = ArgumentTypeError(msg: string)

  // ---------------------------------------------------------------------------
  // PageParserAction

  /** What the alternative `\d+-\d+|\d+` of the pattern matches. */
  ghost predicate ItemMatch(p: string)
  {
    IsNumber(p) || exists k :: 0 < k < |p| && p[k] == '-' && IsNumber(p[..k]) && IsNumber(p[k + 1..])
  }

  /** `re.fullmatch(r"(\d+-\d+|\d+)(,(\d+-\d+|\d+))*", values)`: the text is
      one or more matching items joined by commas. */
  ghost predicate FullMatch(values: string)
  {
    exists items: seq<string> :: |items| >= 1 && (forall k :: 0 <= k < |items| ==> ItemMatch(items[k])) && values == Join(items, ',')
  }

  /** One comma-separated piece, judged by its dash-separated parts. */
  predicate IsItem(p: string)
  {
    var parts := Split(p, '-');
    && (|parts| == 1 || |parts| == 2)
    && (forall k :: 0 <= k < |parts| ==> IsNumber(parts[k]))
  }

  /** The test the action applies before it splits: every piece is an item. */
  predicate Accepts(values: string)
  {
    var pieces := Split(values, ',');
    forall k :: 0 <= k < |pieces| ==> IsItem(pieces[k])
  }

  /** The pages of one item: `range(a, b)` with b = 1 + a for "a" and
      b = 1 + int(second part) for "a-b". */
  function ItemPages(p: string): set<int>
    requires IsItem(p)
  {
    var parts := Split(p, '-');
    var a := Value(parts[0]);
    var b := 1 + (if |parts| == 1 then a else Value(parts[1]));
    Range(a, b)
  }

  /** `set(range(a, b))`. */
  function Range(a: int, b: int): (r: set<int>)
    ensures forall x :: x in r <==> a <= x < b
    decreases b - a
  {
    if b <= a then {} else {a} + Range(a + 1, b)
  }

  /** The union the loop builds with `pages.update`, one item after the other. */
  function UnionPages(pieces: seq<string>): set<int>
    requires forall k :: 0 <= k < |pieces| ==> IsItem(pieces[k])
  {
    if |pieces| == 0 then {} else ItemPages(pieces[0]) + UnionPages(pieces[1..])
  }

  /** A page is in the union exactly when some item selects it. */
  lemma {:induction false} InUnion(pieces: seq<string>, x: int)
    requires forall k :: 0 <= k < |pieces| ==> IsItem(pieces[k])
    ensures x in UnionPages(pieces) <==> exists k :: 0 <= k < |pieces| && x in ItemPages(pieces[k])
    decreases |pieces|
  {
    if |pieces| > 0 {
      var tail := pieces[1..];
      InUnion(tail, x);
      if x in UnionPages(tail) {
        var k :| 0 <= k < |tail| && x in ItemPages(tail[k]);
        assert tail[k] == pieces[k + 1];
      }
      if exists k :: 0 <= k < |pieces| && x in ItemPages(pieces[k]) {
        var k :| 0 <= k < |pieces| && x in ItemPages(pieces[k]);
        if k > 0 {
          assert tail[k - 1] == pieces[k];
        }
      }
    }
  }

  /** PageParserAction.__call__(values): the set of selected pages, or the
      error raised for text the pattern does not match. */
  function ParsePages(values: string): (r: Result<set<int>, ArgumentError>)
    ensures r.Err? <==> !Accepts(values)
    ensures r.Err? ==> r.error == ArgumentTypeError("Invalid pages: " + values)
  {
    if !Accepts(values) then Err(ArgumentTypeError("Invalid pages: " + values))
    else Ok(UnionPages(Split(values, ',')))
  }

  /** The pages of "a" are {a}; those of "a-b" are a..b, none when b < a. */
  lemma ItemPagesMeaning(a: nat, b: nat)
    ensures IsItem(Digits(a)) && ItemPages(Digits(a)) == {a}
    ensures IsItem(Digits(a) + "-" + Digits(b))
    ensures forall x :: x in ItemPages(Digits(a) + "-" + Digits(b)) <==> a <= x <= b
    ensures b < a ==> ItemPages(Digits(a) + "-" + Digits(b)) == {}
  {
    NoDashInNumber(Digits(a));
    NoDashInNumber(Digits(b));
    SplitWithout(Digits(a), '-');
    ValueOfDigits(a);
    ValueOfDigits(b);
    var p := Digits(a) + "-" + Digits(b);
    assert p == Join([Digits(a), Digits(b)], '-');
    SplitJoin([Digits(a), Digits(b)], '-');
    if b < a {
      assert forall x :: x !in ItemPages(p);
    }
  }

  lemma NoDashInNumber(p: string)
    requires IsNumber(p)
    ensures '-' !in p && ',' !in p
  {
    forall t | 0 <= t < |p|
      ensures p[t] != '-' && p[t] != ','
    {
      assert IsDigit(p[t]);
    }
  }

  /** A piece passes the dash test exactly when it matches `\d+-\d+|\d+`. */
  lemma ItemIff(p: string)
    ensures IsItem(p) <==> ItemMatch(p)
  {
    if IsItem(p) {
      ItemSound(p);
    }
    if ItemMatch(p) {
      ItemComplete(p);
    }
  }

  lemma ItemSound(p: string)
    requires IsItem(p)
    ensures ItemMatch(p)
  {
    var parts := Split(p, '-');
    JoinSplit(p, '-');
    if |parts| == 2 {
      var k := |parts[0]|;
      assert p == parts[0] + "-" + parts[1];
      assert p[..k] == parts[0] && p[k + 1..] == parts[1];
    }
  }

  lemma ItemComplete(p: string)
    requires ItemMatch(p)
    ensures IsItem(p)
  {
    if IsNumber(p) {
      NoDashInNumber(p);
      SplitWithout(p, '-');
    } else {
      var k :| 0 < k < |p| && p[k] == '-' && IsNumber(p[..k]) && IsNumber(p[k + 1..]);
      RangeItemSplits(p[..k], p[k + 1..]);
      assert p == p[..k] + "-" + p[k + 1..];
    }
  }

  /** "a-b" splits on its dash into the two numbers. */
  lemma RangeItemSplits(a: string, b: string)
    requires IsNumber(a) && IsNumber(b)
    ensures Split(a + "-" + b, '-') == [a, b]
  {
    NoDashInNumber(a);
    NoDashInNumber(b);
    assert a + "-" + b == Join([a, b], '-');
    SplitJoin([a, b], '-');
  }

  /** No matching item contains a comma. */
  lemma ItemHasNoComma(p: string)
    requires ItemMatch(p)
    ensures ',' !in p
  {
    if IsNumber(p) {
      NoDashInNumber(p);
    } else {
      var k :| 0 < k < |p| && p[k] == '-' && IsNumber(p[..k]) && IsNumber(p[k + 1..]);
      NoDashInNumber(p[..k]);
      NoDashInNumber(p[k + 1..]);
      assert p == p[..k] + "-" + p[k + 1..];
    }
  }

  /** The action accepts exactly the texts the pattern fully matches. */
  lemma AcceptsIffFullMatch(values: string)
    ensures Accepts(values) <==> FullMatch(values)
  {
    var pieces := Split(values, ',');
    if Accepts(values) {
      JoinSplit(values, ',');
      forall k | 0 <= k < |pieces|
        ensures ItemMatch(pieces[k])
      {
        ItemIff(pieces[k]);
      }
    }
    if FullMatch(values) {
      var items: seq<string> :| |items| >= 1 && (forall k :: 0 <= k < |items| ==> ItemMatch(items[k])) && values == Join(items, ',');
      forall k | 0 <= k < |items|
        ensures ',' !in items[k] && IsItem(items[k])
      {
        ItemHasNoComma(items[k]);
        ItemIff(items[k]);
      }
      SplitJoin(items, ',');
    }
  }

  /** A rendered list of page numbers and ranges is accepted, and selects the
      union of what its items select. */
  lemma ParseRendered(items: seq<string>)
    requires |items| >= 1 && forall k :: 0 <= k < |items| ==> ItemMatch(items[k])
    ensures ParsePages(Join(items, ',')).Ok?
    ensures forall k :: 0 <= k < |items| ==> IsItem(items[k])
    ensures forall x :: x in ParsePages(Join(items, ',')).value <==> exists k :: 0 <= k < |items| && x in ItemPages(items[k])
  {
    forall k | 0 <= k < |items|
      ensures ',' !in items[k] && IsItem(items[k])
    {
      ItemHasNoComma(items[k]);
      ItemIff(items[k]);
    }
    SplitJoin(items, ',');
    forall x {
      InUnion(items, x);
    }
  }

  // ---------------------------------------------------------------------------
  // __checkSuffix

  /** `pathlib.PurePosixPath(path).name`: the last component, ignoring empty
      components (repeated or trailing slashes) and "." components. */
  function Name(path: string): (name: string)
    ensures '/' !in name
  {
    var parts := Split(path, '/');
    SplitPiecesAvoid(path, '/');
    LastComponent(parts)
  }

  function LastComponent(parts: seq<string>): (name: string)
    requires forall k :: 0 <= k < |parts| ==> '/' !in parts[k]
    ensures name == "" || exists k :: 0 <= k < |parts| && parts[k] == name
    ensures name != "."
    decreases |parts|
  {
    if |parts| == 0 then ""
    else
      var last := parts[|parts| - 1];
      if last == "" || last == "." then LastComponent(parts[..|parts| - 1]) else last
  }

  /** The position of the last '.' of `name`, if any. */
  function LastDot(name: string): (r: Option<nat>)
    ensures r.Some? ==> r.value < |name| && name[r.value] == '.'
    ensures r.Some? ==> forall t :: r.value < t < |name| ==> name[t] != '.'
    ensures r.None? ==> forall t :: 0 <= t < |name| ==> name[t] != '.'
  {
    if |name| == 0 then None
    else if name[|name| - 1] == '.' then Some(|name| - 1)
    else LastDot(name[..|name| - 1])
  }

  /** `PurePath.suffix`: from the last dot of the name to its end, provided
      that dot neither starts nor ends the name; "" otherwise. */
  function Suffix(path: string): (suffix: string)
    ensures suffix == "" || (|suffix| >= 2 && suffix[0] == '.' && forall t :: 1 <= t < |suffix| ==> suffix[t] != '.')
  {
    var name := Name(path);
    match LastDot(name)
    case None => ""
    case Some(i) => if 0 < i < |name| - 1 then name[i..] else ""
  }

  /** __checkSuffix(string): the argument itself when its suffix is ".json"
      or ".zip", the argparse error otherwise. */
  function CheckSuffix(path: string): (r: Result<string, ArgumentError>)
    ensures r.Ok? <==> Suffix(path) in {".json", ".zip"}
    ensures r.Ok? ==> r.value == path
    ensures r.Err? ==> r.error == ArgumentTypeError("invalid output file suffix: expected \".json\" or \".zip\"")
  {
    var suffix := Suffix(path);
    if suffix != ".json" && suffix != ".zip" then
      Err(ArgumentTypeError("invalid output file suffix: expected \".json\" or \".zip\""))
    else Ok(path)
  }

  /** The name of a path is its component after the last slash. */
  lemma NameOfPath(dir: string, name: string)
    requires '/' !in name && name != "" && name != "."
    ensures Name(dir + ['/'] + name) == name
  {
    SplitPrefix(dir, name);
  }

  /** The suffix of `dir/stem.ext` is ".ext" when stem and ext hold no dot
      or slash and neither is empty. */
  lemma SuffixOfFileName(dir: string, stem: string, ext: string)
    requires |stem| >= 1 && '/' !in stem && '.' !in stem
    requires |ext| >= 1 && '/' !in ext && '.' !in ext
    ensures Suffix(dir + "/" + stem + "." + ext) == "." + ext
  {
    var name := stem + "." + ext;
    var path := dir + "/" + stem + "." + ext;
    assert path == dir + ['/'] + name;
    assert '/' !in name;
    NameOfPath(dir, name);
    LastDotAt(name, |stem|);
    SuffixAt(path, |stem|);
    assert name[|stem|..] == "." + ext;
  }

  /** A file name with a non-empty stem and the extension "json" or "zip",
      under any directory, is accepted unchanged. */
  lemma CheckSuffixOfFileName(dir: string, stem: string, ext: string)
    requires |stem| >= 1 && '/' !in stem && '.' !in stem
    requires ext == "json" || ext == "zip"
    ensures CheckSuffix(dir + "/" + stem + "." + ext) == Ok(dir + "/" + stem + "." + ext)
  {
    var path := dir + "/" + stem + "." + ext;
    assert '/' !in ext && '.' !in ext;
    SuffixOfFileName(dir, stem, ext);
    assert Suffix(path) == "." + ext;
    assert "." + ext == ".json" || "." + ext == ".zip";
  }

  /** The suffix starts at the last dot of the name when that dot is inside it. */
  lemma SuffixAt(path: string, i: nat)
    requires LastDot(Name(path)) == Some(i) && 0 < i < |Name(path)| - 1
    ensures Suffix(path) == Name(path)[i..]
  {
  }

  lemma SplitPrefix(dir: string, name: string)
    requires '/' !in name
    ensures var parts := Split(dir + ['/'] + name, '/'); |parts| >= 2 && parts[|parts| - 1] == name
    decreases |dir|
  {
    var s := dir + ['/'] + name;
    if |dir| == 0 {
      assert s[1..] == name;
      SplitWithout(name, '/');
    } else {
      assert s[1..] == dir[1..] + ['/'] + name;
      SplitPrefix(dir[1..], name);
    }
  }

  /** A dot with no dot after it is the last dot. */
  lemma {:induction false} LastDotAt(name: string, i: nat)
    requires i < |name| && name[i] == '.'
    requires forall t :: i < t < |name| ==> name[t] != '.'
    ensures LastDot(name) == Some(i)
    decreases |name|
  {
    if i < |name| - 1 {
      LastDotAt(name[..|name| - 1], i);
    }
  }

  /** A hidden file such as ".json" has no suffix, so it is refused. */
  lemma HiddenFileRefused()
    ensures CheckSuffix(".json").Err?
  {
    assert Split(".json", '/') == [".json"] by {
      SplitWithout(".json", '/');
    }
    assert LastDot(".json") == Some(0);
  }
}
