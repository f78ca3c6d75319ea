/** The two post-processing builders of the named-entity module (ner.py):
    `_get_xml_string`, which tags the entities of a directory entry inside its
    escaped text, and `_build_entry`, which groups street names and numbers
    into addresses. The recognisers that produce the entities are not part of
    this model; their output is an input here. */
module Ner {

  /** _NamedEntity, restricted to the fields the two builders read: the label
      (`tag`) and the character span `start:end` (`stop` is `end`). The score and the recogniser's own text are
      never read by them. */
  datatype NamedEntity = NamedEntity(tag: string, start: int, stop: int)

  /** dataclass Address. */
  datatype Address = Address(streetName: string, streetNumbers: seq<string>)

  /** An element of the `addresses` list: an Address, or the stripped text of an
      entity whose label is itself "addresses", which `attributes[e.label]`
      appends to the same list. */
  datatype AddressItem = Addr(address: Address) | Stray(text: string)

  /** dataclass Entity, without the `ner_xml` field `_build_entry` leaves unset. */
  datatype Entry = Entry(addresses: seq<AddressItem>, persons: seq<string>)

  const LOC: string := "LOC"
  const CARDINAL: string := "CARDINAL"
  const PER: string := "PER"
  /** The key of the address list in `attributes`; an entity with this label
      lands in that list too. */
  const ADDRESSES: string := "addresses"

  // ---------------------------------------------------------------------------
  // Python string primitives

  function ClampIndex(i: int, n: nat): (k: nat)
    ensures k <= n
  {
    if i < 0 then (if i + n < 0 then 0 else i + n) else if i > n then n else i
  }

  /** `s[a:b]` with Python's rules: negative bounds count from the end, bounds
      are clamped to the text, and an empty range gives "". */
  function PySlice(s: string, a: int, b: int): (r: string)
    ensures 0 <= a <= b <= |s| ==> r == s[a..b]
    ensures |r| <= |s|
  {
    var i := ClampIndex(a, |s|);
    var j := ClampIndex(b, |s|);
    if i < j then s[i..j] else ""
  }

  /** The characters `str.isspace` accepts. */
  predicate IsPySpace(c: char)
  {
    || c == ' ' || c == '\t' || c == '\n' || c == '\r' || c == '\U{B}' || c == '\U{C}'
    || '\U{1C}' <= c <= '\U{1F}' || c == '\U{85}' || c == '\U{A0}' || c == '\U{1680}'
    || '\U{2000}' <= c <= '\U{200A}' || c == '\U{2028}' || c == '\U{2029}'
    || c == '\U{202F}' || c == '\U{205F}' || c == '\U{3000}'
  }

  /** The number of white-space characters `s` starts with. */
  function LeadingSpace(s: string): (n: nat)
    ensures n <= |s|
    ensures forall t :: 0 <= t < n ==> IsPySpace(s[t])
    ensures n == |s| || !IsPySpace(s[n])
  {
    if |s| > 0 && IsPySpace(s[0]) then 1 + LeadingSpace(s[1..]) else 0
  }

  /** Where the white space `s` ends with begins. */
  function TrailingSpace(s: string): (m: nat)
    ensures m <= |s|
    ensures forall t :: m <= t < |s| ==> IsPySpace(s[t])
    ensures m == 0 || !IsPySpace(s[m - 1])
  {
    if |s| > 0 && IsPySpace(s[|s| - 1]) then TrailingSpace(s[..|s| - 1]) else |s|
  }

  /** `s.strip()`: the text between the leading and the trailing white space;
      everything outside it is white space and it neither starts nor ends
      with white space. */
  function Strip(s: string): (r: string)
    ensures LeadingSpace(s) + |r| <= |s| && r == s[LeadingSpace(s)..LeadingSpace(s) + |r|]
    ensures forall t :: 0 <= t < |s| && (t < LeadingSpace(s) || t >= LeadingSpace(s) + |r|) ==> IsPySpace(s[t])
    ensures |r| == 0 || (!IsPySpace(r[0]) && !IsPySpace(r[|r| - 1]))
  {
    var i := LeadingSpace(s);
    if i == |s| then "" else s[i..TrailingSpace(s)]
  }

  // ---------------------------------------------------------------------------
  // _get_xml_string

  /** html.escape(x, quote=False) on one character. */
  function EscapeChar(c: char): string
  {
    if c == '&' then "&amp;" else if c == '<' then "&lt;" else if c == '>' then "&gt;" else [c]
  }

  /** html.escape(x, quote=False): '&', '<' and '>' become entity references. */
  function Escape(s: string): string
  {
    if |s| == 0 then "" else EscapeChar(s[0]) + Escape(s[1..])
  }

  /** The characters the BERT patch moves in front of the opening tag. */
  predicate IsLeadingBlank(c: char) { c == '\t' || c == ' ' || c == '\n' }

  /** One entry of the `parts` list, kept apart by kind; `xmlize(tag, text)`
      is the three parts `Open(tag)`, `Escaped(text)`, `Close(tag)`. */
  datatype Part =
    | Escaped(text: string)   // htmlescape(text)
    | Blank(c: char)          // a leading blank written as it is
    | Open(tag: string)       // "<tag>"
    | Close(tag: string)      // "</tag>"

  function Render(p: Part): string
  {
    match p
    case Escaped(text) => Escape(text)
    case Blank(c) => [c]
    case Open(tag) => "<" + tag + ">"
    case Close(tag) => "</" + tag + ">"
  }

  /** `"".join(parts)`. */
  function JoinParts(parts: seq<Part>): string
  {
    if |parts| == 0 then "" else Render(parts[0]) + JoinParts(parts[1..])
  }

  /** The BERT patch: a span starting with a tab, space or newline gives that
      character up, to be written before the opening tag. */
  function LeadingBlank(span: string): (lead: string)
    ensures |lead| <= 1 && |lead| <= |span| && lead == span[..|lead|]
    ensures |lead| == 1 <==> |span| > 0 && IsLeadingBlank(span[0])
  {
    if |span| > 0 && IsLeadingBlank(span[0]) then [span[0]] else ""
  }

  /** The escaped gap between the cursor and an entity, when there is one. */
  function GapParts(src: string, cursor: int, start: int): seq<Part>
  {
    if start > cursor then [Escaped(PySlice(src, cursor, start))] else []
  }

  /** `xmlize(label, span)` with the BERT patch applied: the moved leading
      blank, then the element. */
  function ElementParts(tag: string, span: string): seq<Part>
  {
    var lead := LeadingBlank(span);
    (if |lead| == 1 then [Blank(lead[0])] else []) + [Open(tag), Escaped(span[|lead|..]), Close(tag)]
  }

  /** The parts one entity appends: the escaped gap since the cursor, the
      moved leading blank, then the element. */
  function EntityParts(src: string, e: NamedEntity, cursor: int): seq<Part>
  {
    GapParts(src, cursor, e.start) + ElementParts(e.tag, PySlice(src, e.start, e.stop))
  }

  /** The parts from entity `i` on, with the cursor where entity `i - 1` ended,
      closed by the escaped rest of the text. */
  function PartsFrom(src: string, ents: seq<NamedEntity>, i: nat, cursor: int): seq<Part>
    requires i <= |ents|
    decreases |ents| - i
  {
    if i == |ents| then
      (if cursor < |src| then [Escaped(PySlice(src, cursor, |src|))] else [])
    else
      EntityParts(src, ents[i], cursor) + PartsFrom(src, ents, i + 1, ents[i].stop)
  }

  /** _get_xml_string(source_text, named_entities). */
  function XmlString(src: string, ents: seq<NamedEntity>): string
  {
    JoinParts(PartsFrom(src, ents, 0, 0))
  }

  /** The reader the tagged text is meant for: tags `<...>` are deleted and the
      three entity references are turned back into their characters. */
  function Decode(s: string): string
    decreases |s|
  {
    if |s| == 0 then "" else var (out, used) := ReadToken(s); out + Decode(s[used..])
  }

  /** The first token of `s`, read back: what it stands for and its length. */
  function ReadToken(s: string): (t: (string, nat))
    requires |s| > 0
    ensures 1 <= t.1 <= |s|
  {
    if s[0] == '<' then ("", TagEnd(s, 1))
    else if s[0] == '&' && |s| >= 5 && s[1] == 'a' && s[2] == 'm' && s[3] == 'p' && s[4] == ';' then ("&", 5)
    else if s[0] == '&' && |s| >= 4 && s[1] == 'l' && s[2] == 't' && s[3] == ';' then ("<", 4)
    else if s[0] == '&' && |s| >= 4 && s[1] == 'g' && s[2] == 't' && s[3] == ';' then (">", 4)
    else ([s[0]], 1)
  }

  /** The position after the first '>' at or after `i`, or the end of the text. */
  function TagEnd(s: string, i: nat): (j: nat)
    requires i <= |s|
    ensures i <= j <= |s|
    decreases |s| - i
  {
    if i == |s| then i else if s[i] == '>' then i + 1 else TagEnd(s, i + 1)
  }

  /** The text one part stands for: nothing for a tag. */
  function PartPlain(p: Part): string
  {
    match p
    case Escaped(text) => text
    case Blank(c) => [c]
    case _ => ""
  }

  /** The text a list of parts stands for: escaped texts and blanks, without tags. */
  function PlainText(parts: seq<Part>): string
  {
    if |parts| == 0 then "" else PartPlain(parts[0]) + PlainText(parts[1..])
  }

  /** Parts whose tags can be read back: no '>' in a tag name, and blanks that
      start neither a tag nor a reference. */
  predicate Readable(p: Part)
  {
    match p
    case Escaped(_) => true
    case Blank(c) => c != '<' && c != '&'
    case Open(tag) => '>' !in tag
    case Close(tag) => '>' !in tag
  }

  /** Every part of the list is readable. */
  predicate AllReadable(parts: seq<Part>)
  {
    |parts| == 0 || (Readable(parts[0]) && AllReadable(parts[1..]))
  }

  /** Entities that lie inside the text, in order and without overlap, with
      labels that can stand in a tag. */
  predicate WellPlaced(src: string, ents: seq<NamedEntity>)
  {
    && (forall k :: 0 <= k < |ents| ==> 0 <= ents[k].start <= ents[k].stop <= |src| && '>' !in ents[k].tag)
    && (forall k :: 0 < k < |ents| ==> ents[k - 1].stop <= ents[k].start)
  }

  /** Each escaped character reads back as itself. */
  lemma {:induction false} DecodeEscapeChar(c: char, rest: string)
    ensures Decode(EscapeChar(c) + rest) == [c] + Decode(rest)
  {
    var s := EscapeChar(c) + rest;
    var n := |EscapeChar(c)|;
    assert s[n..] == rest;
    assert ReadToken(s) == ([c], n);
  }

  lemma {:induction false} DecodeEscape(t: string, rest: string)
    ensures Decode(Escape(t) + rest) == t + Decode(rest)
    decreases |t|
  {
    if |t| == 0 {
      assert Escape(t) + rest == rest;
    } else {
      var tail := Escape(t[1..]) + rest;
      var d := Decode(rest);
      assert Escape(t) == EscapeChar(t[0]) + Escape(t[1..]);
      Associative(EscapeChar(t[0]), Escape(t[1..]), rest);
      DecodeEscapeChar(t[0], tail);
      DecodeEscape(t[1..], rest);
      Associative([t[0]], t[1..], d);
      assert [t[0]] + t[1..] == t;
    }
  }

  lemma Associative(a: string, b: string, c: string)
    ensures a + b + c == a + (b + c)
  {
  }

  lemma SliceConcat(s: string, a: int, b: int, c: int)
    requires 0 <= a <= b <= c <= |s|
    ensures s[a..b] + s[b..c] == s[a..c]
  {
  }

  /** A tag whose name holds no '>' disappears. */
  lemma {:induction false} DecodeTag(name: string, rest: string)
    requires '>' !in name
    ensures Decode("<" + name + ">" + rest) == Decode(rest)
  {
    var s := "<" + name + ">" + rest;
    TagEndAfter(s, 1, |name| + 1);
    assert s[|name| + 2..] == rest;
  }

  lemma {:induction false} TagEndAfter(s: string, i: nat, k: nat)
    requires i <= k < |s| && s[k] == '>'
    requires forall t :: i <= t < k ==> s[t] != '>'
    ensures TagEnd(s, i) == k + 1
    decreases k - i
  {
    if i < k {
      TagEndAfter(s, i + 1, k);
    }
  }

  /** A character that starts neither a tag nor a reference is kept. */
  lemma {:induction false} DecodePlain(c: char, rest: string)
    requires c != '<' && c != '&'
    ensures Decode([c] + rest) == [c] + Decode(rest)
  {
    assert ([c] + rest)[1..] == rest;
  }

  /** One readable part reads back as its plain text. */
  lemma {:induction false} DecodePart(p: Part, rest: string)
    requires Readable(p)
    ensures Decode(Render(p) + rest) == PartPlain(p) + Decode(rest)
  {
    match p
    case Escaped(text) =>
      DecodeEscape(text, rest);
    case Blank(c) =>
      DecodePlain(c, rest);
    case Open(tag) =>
      DecodeTag(tag, rest);
    case Close(tag) =>
      assert '>' !in "/" + tag;
      assert Render(p) + rest == "<" + ("/" + tag) + ">" + rest;
      DecodeTag("/" + tag, rest);
  }

  /** Joined readable parts read back as their plain text. */
  lemma {:induction false} DecodeJoin(parts: seq<Part>)
    requires AllReadable(parts)
    ensures Decode(JoinParts(parts)) == PlainText(parts)
    decreases |parts|
  {
    if |parts| > 0 {
      DecodeJoin(parts[1..]);
      DecodePart(parts[0], JoinParts(parts[1..]));
    }
  }

  lemma {:induction false} PlainTextAppend(a: seq<Part>, b: seq<Part>)
    ensures PlainText(a + b) == PlainText(a) + PlainText(b)
    decreases |a|
  {
    if |a| > 0 {
      assert (a + b)[1..] == a[1..] + b;
      PlainTextAppend(a[1..], b);
    } else {
      assert a + b == b;
    }
  }

  lemma {:induction false} ReadableAppend(a: seq<Part>, b: seq<Part>)
    requires AllReadable(a) && AllReadable(b)
    ensures AllReadable(a + b)
    decreases |a|
  {
    if |a| > 0 {
      assert (a + b)[1..] == a[1..] + b;
      ReadableAppend(a[1..], b);
    } else {
      assert a + b == b;
    }
  }

  lemma {:induction false} PlainSingleton(p: Part)
    ensures PlainText([p]) == PartPlain(p)
  {
    assert [p][1..] == [];
  }

  lemma {:induction false} PlainElement(tag: string, body: string)
    ensures PlainText([Open(tag), Escaped(body), Close(tag)]) == body
  {
    var element := [Open(tag), Escaped(body), Close(tag)];
    assert element == [Open(tag)] + [Escaped(body)] + [Close(tag)];
    PlainTextAppend([Open(tag)] + [Escaped(body)], [Close(tag)]);
    PlainTextAppend([Open(tag)], [Escaped(body)]);
    PlainSingleton(Open(tag));
    PlainSingleton(Escaped(body));
    PlainSingleton(Close(tag));
  }

  lemma {:induction false} ReadableSingleton(p: Part)
    requires Readable(p)
    ensures AllReadable([p])
  {
    assert [p][1..] == [];
  }

  lemma {:induction false} ReadableElement(tag: string, body: string)
    requires '>' !in tag
    ensures AllReadable([Open(tag), Escaped(body), Close(tag)])
  {
    var element := [Open(tag), Escaped(body), Close(tag)];
    ReadableSingleton(Close(tag));
    assert element[1..][1..] == [Close(tag)];
    assert AllReadable(element[1..]);
  }

  lemma {:induction false} GapPlain(src: string, cursor: int, start: int)
    requires 0 <= cursor <= start <= |src|
    ensures AllReadable(GapParts(src, cursor, start))
    ensures PlainText(GapParts(src, cursor, start)) == src[cursor..start]
  {
    if start > cursor {
      PlainSingleton(Escaped(src[cursor..start]));
      ReadableSingleton(Escaped(src[cursor..start]));
    }
  }

  lemma SliceSuffix(s: string, a: int, b: int)
    requires 0 <= a <= b <= |s|
    ensures s[a..b] + s[b..] == s[a..]
  {
  }

  lemma TakeDrop(s: string, n: int)
    requires 0 <= n <= |s|
    ensures s[..n] + s[n..] == s
  {
  }

  lemma {:induction false} ElementPlain(tag: string, span: string)
    ensures PlainText(ElementParts(tag, span)) == span
  {
    var lead := LeadingBlank(span);
    var body := span[|lead|..];
    var blank: seq<Part> := if |lead| == 1 then [Blank(lead[0])] else [];
    var element := [Open(tag), Escaped(body), Close(tag)];
    PlainElement(tag, body);
    if |lead| == 1 {
      PlainSingleton(Blank(lead[0]));
    }
    PlainTextAppend(blank, element);
    TakeDrop(span, |lead|);
  }

  lemma {:induction false} ElementReadable(tag: string, span: string)
    requires '>' !in tag
    ensures AllReadable(ElementParts(tag, span))
  {
    var lead := LeadingBlank(span);
    var body := span[|lead|..];
    var blank: seq<Part> := if |lead| == 1 then [Blank(lead[0])] else [];
    var element := [Open(tag), Escaped(body), Close(tag)];
    ReadableElement(tag, body);
    if |lead| == 1 {
      ReadableSingleton(Blank(lead[0]));
    }
    ReadableAppend(blank, element);
  }

  /** One entity's parts stand for the text from the cursor to the entity's end. */
  lemma {:induction false} EntityPlain(src: string, e: NamedEntity, cursor: int)
    requires 0 <= cursor <= e.start <= e.stop <= |src|
    ensures PlainText(EntityParts(src, e, cursor)) == src[cursor..e.stop]
  {
    var gap := GapParts(src, cursor, e.start);
    var element := ElementParts(e.tag, src[e.start..e.stop]);
    GapPlain(src, cursor, e.start);
    ElementPlain(e.tag, src[e.start..e.stop]);
    PlainTextAppend(gap, element);
    SliceConcat(src, cursor, e.start, e.stop);
  }

  /** One entity's parts are readable when its label holds no '>'. */
  lemma {:induction false} EntityReadable(src: string, e: NamedEntity, cursor: int)
    requires 0 <= cursor <= e.start <= e.stop <= |src| && '>' !in e.tag
    ensures AllReadable(EntityParts(src, e, cursor))
  {
    GapPlain(src, cursor, e.start);
    ElementReadable(e.tag, src[e.start..e.stop]);
    ReadableAppend(GapParts(src, cursor, e.start), ElementParts(e.tag, src[e.start..e.stop]));
  }

  /** The escaped rest of the text that closes the parts. */
  lemma {:induction false} PartsEnd(src: string, ents: seq<NamedEntity>, cursor: int)
    requires 0 <= cursor <= |src|
    ensures AllReadable(PartsFrom(src, ents, |ents|, cursor))
    ensures PlainText(PartsFrom(src, ents, |ents|, cursor)) == src[cursor..]
  {
    if cursor < |src| {
      assert PySlice(src, cursor, |src|) == src[cursor..];
      PlainSingleton(Escaped(src[cursor..]));
      ReadableSingleton(Escaped(src[cursor..]));
    }
  }

  /** The parts from entity `i` on stand for the rest of the text from the cursor. */
  lemma {:induction false} PartsPlain(src: string, ents: seq<NamedEntity>, i: nat, cursor: int)
    requires WellPlaced(src, ents) && i <= |ents| && 0 <= cursor <= |src|
    requires i < |ents| ==> cursor <= ents[i].start
    ensures PlainText(PartsFrom(src, ents, i, cursor)) == src[cursor..]
    decreases |ents| - i
  {
    if i == |ents| {
      PartsEnd(src, ents, cursor);
    } else {
      var e := ents[i];
      var head := EntityParts(src, e, cursor);
      var tail := PartsFrom(src, ents, i + 1, e.stop);
      assert PartsFrom(src, ents, i, cursor) == head + tail;
      PartsPlain(src, ents, i + 1, e.stop);
      EntityPlain(src, e, cursor);
      PlainTextAppend(head, tail);
      SliceSuffix(src, cursor, e.stop);
    }
  }

  /** The parts from entity `i` on are readable. */
  lemma {:induction false} PartsReadable(src: string, ents: seq<NamedEntity>, i: nat, cursor: int)
    requires WellPlaced(src, ents) && i <= |ents| && 0 <= cursor <= |src|
    requires i < |ents| ==> cursor <= ents[i].start
    ensures AllReadable(PartsFrom(src, ents, i, cursor))
    decreases |ents| - i
  {
    if i == |ents| {
      PartsEnd(src, ents, cursor);
    } else {
      var e := ents[i];
      var head := EntityParts(src, e, cursor);
      var tail := PartsFrom(src, ents, i + 1, e.stop);
      assert PartsFrom(src, ents, i, cursor) == head + tail;
      PartsReadable(src, ents, i + 1, e.stop);
      EntityReadable(src, e, cursor);
      ReadableAppend(head, tail);
    }
  }

  /** Deleting the tags and undoing the escapes gives the entry text back when
      the entities are in order, inside the text and do not overlap. */
  lemma {:induction false} XmlRoundTrip(src: string, ents: seq<NamedEntity>)
    requires WellPlaced(src, ents)
    ensures Decode(XmlString(src, ents)) == src
  {
    PartsPlain(src, ents, 0, 0);
    PartsReadable(src, ents, 0, 0);
    DecodeJoin(PartsFrom(src, ents, 0, 0));
  }

  /** Without entities the output is the escaped text. */
  lemma {:induction false} XmlWithoutEntities(src: string)
    ensures XmlString(src, []) == Escape(src)
  {
    assert PySlice(src, 0, |src|) == src;
    if |src| > 0 {
      assert JoinParts([Escaped(src)]) == Escape(src) + JoinParts([]);
    }
  }

  // ---------------------------------------------------------------------------
  // _build_entry

  /** The stripped text an entity covers: `span(source_text, e.start, e.stop)`. */
  function SpanText(src: string, e: NamedEntity): string
  {
    Strip(PySlice(src, e.start, e.stop))
  }

  /** The loop state of `_build_entry`: the address list so far, the open
      address and the person names seen so far. */
  datatype BuildState = BuildState(done: seq<AddressItem>, open: Address, persons: seq<string>)

  /** One iteration of the loop over the entities: the text goes to the list of
      its label first, then a non-CARDINAL closes the open address. */
  function BuildStep(src: string, st: BuildState, e: NamedEntity): BuildState
  {
    var text := SpanText(src, e);
    var persons := if e.tag == PER then st.persons + [text] else st.persons;
    var listed := if e.tag == ADDRESSES then st.done + [Stray(text)] else st.done;
    var closes := e.tag != CARDINAL && st.open.streetName != "";
    var done := if closes then listed + [Addr(st.open)] else listed;
    var open := if closes then Address("", []) else st.open;
    var open := if e.tag == CARDINAL && open.streetName != "" then open.(streetNumbers := open.streetNumbers + [text]) else open;
    var open := if e.tag == LOC then open.(streetName := text) else open;
    BuildState(done, open, persons)
  }

  function BuildFrom(src: string, ents: seq<NamedEntity>, i: nat, st: BuildState): BuildState
    requires i <= |ents|
    decreases |ents| - i
  {
    if i == |ents| then st else BuildFrom(src, ents, i + 1, BuildStep(src, st, ents[i]))
  }

  /** What the final `if address.street_name` adds to the address list. */
  function Emitted(st: BuildState): seq<AddressItem>
  {
    if st.open.streetName != "" then st.done + [Addr(st.open)] else st.done
  }

  /** _build_entry(source_text, named_entities). */
  function BuildEntry(src: string, ents: seq<NamedEntity>): Entry
  {
    var st := BuildFrom(src, ents, 0, BuildState([], Address("", []), []));
    Entry(Emitted(st), st.persons)
  }

  // Reference definitions

  /** The stripped texts of the PER entities from `i` on, in order. */
  function PersonsFrom(src: string, ents: seq<NamedEntity>, i: nat): seq<string>
    requires i <= |ents|
    decreases |ents| - i
  {
    if i == |ents| then []
    else (if ents[i].tag == PER then [SpanText(src, ents[i])] else []) + PersonsFrom(src, ents, i + 1)
  }

  /** The texts of the CARDINAL entities that follow position `j - 1` without
      any other entity in between. */
  function CardinalRun(src: string, ents: seq<NamedEntity>, j: nat): seq<string>
    requires j <= |ents|
    decreases |ents| - j
  {
    if j < |ents| && ents[j].tag == CARDINAL then [SpanText(src, ents[j])] + CardinalRun(src, ents, j + 1) else []
  }

  /** One address per LOC entity from `i` on whose stripped text is not empty,
      numbered by the CARDINAL entities right after it. */
  function AddressesFrom(src: string, ents: seq<NamedEntity>, i: nat): seq<Address>
    requires i <= |ents|
    decreases |ents| - i
  {
    if i == |ents| then []
    else
      (if ents[i].tag == LOC && SpanText(src, ents[i]) != "" then [Address(SpanText(src, ents[i]), CardinalRun(src, ents, i + 1))] else [])
      + AddressesFrom(src, ents, i + 1)
  }

  /** The stripped texts of the entities labelled "addresses" from `i` on. */
  function StraysFrom(src: string, ents: seq<NamedEntity>, i: nat): seq<string>
    requires i <= |ents|
    decreases |ents| - i
  {
    if i == |ents| then []
    else (if ents[i].tag == ADDRESSES then [SpanText(src, ents[i])] else []) + StraysFrom(src, ents, i + 1)
  }

  function CountLoc(ents: seq<NamedEntity>, i: nat): nat
    requires i <= |ents|
    decreases |ents| - i
  {
    if i == |ents| then 0 else (if ents[i].tag == LOC then 1 else 0) + CountLoc(ents, i + 1)
  }

  /** The first entity at or after `i` that is not a CARDINAL, or the end. */
  function NextOther(ents: seq<NamedEntity>, i: nat): (m: nat)
    requires i <= |ents|
    ensures i <= m <= |ents|
    ensures forall t :: i <= t < m ==> ents[t].tag == CARDINAL
    ensures m == |ents| || ents[m].tag != CARDINAL
    decreases |ents| - i
  {
    if i < |ents| && ents[i].tag == CARDINAL then NextOther(ents, i + 1) else i
  }

  /** The stray text entity `k` puts on the address list, if its label is "addresses". */
  function StrayAt(src: string, ents: seq<NamedEntity>, k: nat): seq<AddressItem>
    requires k <= |ents|
  {
    if k < |ents| && ents[k].tag == ADDRESSES then [Stray(SpanText(src, ents[k]))] else []
  }

  /** The address a LOC entity opens, numbered by the CARDINALs right after it. */
  function LocAddress(src: string, ents: seq<NamedEntity>, k: nat): seq<AddressItem>
    requires k < |ents|
  {
    if ents[k].tag == LOC && SpanText(src, ents[k]) != "" then [Addr(Address(SpanText(src, ents[k]), CardinalRun(src, ents, k + 1)))] else []
  }

  /** The list from the non-CARDINAL entity `k` on, leaving out `k`'s own stray
      text: the next non-CARDINAL entity `m` lists its stray text, then the
      address `k` opened is closed, then the list goes on from `m`. */
  function AddressesAfter(src: string, ents: seq<NamedEntity>, k: nat): seq<AddressItem>
    requires k <= |ents|
    decreases |ents| - k
  {
    if k == |ents| then []
    else
      var m := NextOther(ents, k + 1);
      StrayAt(src, ents, m) + LocAddress(src, ents, k) + AddressesAfter(src, ents, m)
  }

  /** The reference address list: the stray text of the first non-CARDINAL
      entity, then the list after it. */
  function AddressList(src: string, ents: seq<NamedEntity>): seq<AddressItem>
  {
    var m := NextOther(ents, 0);
    StrayAt(src, ents, m) + AddressesAfter(src, ents, m)
  }

  /** An open address without a street name has no numbers either. */
  predicate OpenWellFormed(st: BuildState)
  {
    st.open.streetName == "" ==> st.open.streetNumbers == []
  }

  /** One step of the loop, by kind of entity: a CARDINAL extends an open
      address; anything else lists its stray text if labelled "addresses",
      closes the open address, and a LOC opens the next one. */
  lemma {:induction false} StepCases(src: string, st: BuildState, e: NamedEntity)
    requires OpenWellFormed(st)
    ensures OpenWellFormed(BuildStep(src, st, e))
    ensures e.tag == CARDINAL ==> BuildStep(src, st, e).done == st.done
    ensures e.tag == CARDINAL && st.open.streetName != "" ==>
      BuildStep(src, st, e).open == Address(st.open.streetName, st.open.streetNumbers + [SpanText(src, e)])
    ensures e.tag == CARDINAL && st.open.streetName == "" ==> BuildStep(src, st, e).open == st.open
    ensures e.tag != CARDINAL ==>
      BuildStep(src, st, e).done == Emitted(st.(done := st.done + (if e.tag == ADDRESSES then [Stray(SpanText(src, e))] else [])))
    ensures e.tag != CARDINAL ==> BuildStep(src, st, e).open == Address(if e.tag == LOC then SpanText(src, e) else "", [])
  {
  }

  /** The addresses still to come from an open address: its street with the
      numbers it has and the CARDINALs that directly follow. */
  function Pending(st: BuildState, run: seq<string>): seq<AddressItem>
  {
    if st.open.streetName != "" then [Addr(Address(st.open.streetName, st.open.streetNumbers + run))] else []
  }

  lemma AssociativeSeq<T>(a: seq<T>, b: seq<T>, c: seq<T>)
    ensures a + b + c == a + (b + c)
  {
  }

  /** What the loop still emits from position `i` on with `st` open. */
  function Remaining(src: string, ents: seq<NamedEntity>, i: nat, st: BuildState): seq<AddressItem>
    requires i <= |ents|
  {
    var m := NextOther(ents, i);
    StrayAt(src, ents, m) + Pending(st, CardinalRun(src, ents, i)) + AddressesAfter(src, ents, m)
  }

  /** A CARDINAL step hands its text on to the open address's numbers. */
  lemma {:induction false} CardinalStep(src: string, ents: seq<NamedEntity>, i: nat, st: BuildState)
    requires i < |ents| && ents[i].tag == CARDINAL && OpenWellFormed(st)
    ensures var next := BuildStep(src, st, ents[i]);
      next.done + Remaining(src, ents, i + 1, next) == st.done + Remaining(src, ents, i, st)
  {
    var t := SpanText(src, ents[i]);
    var run := CardinalRun(src, ents, i + 1);
    StepCases(src, st, ents[i]);
    assert CardinalRun(src, ents, i) == [t] + run;
    assert NextOther(ents, i) == NextOther(ents, i + 1);
    if st.open.streetName != "" {
      AssociativeSeq(st.open.streetNumbers, [t], run);
    }
  }

  /** Any other step lists its stray text, closes the open address and starts
      the next one. */
  lemma {:induction false} OtherStep(src: string, ents: seq<NamedEntity>, i: nat, st: BuildState)
    requires i < |ents| && ents[i].tag != CARDINAL && OpenWellFormed(st)
    ensures var next := BuildStep(src, st, ents[i]);
      next.done + Remaining(src, ents, i + 1, next) == st.done + Remaining(src, ents, i, st)
  {
    var next := BuildStep(src, st, ents[i]);
    var m := NextOther(ents, i + 1);
    var stray, closed := StrayAt(src, ents, i), Pending(st, []);
    var s2, l, r := StrayAt(src, ents, m), LocAddress(src, ents, i), AddressesAfter(src, ents, m);
    OtherStepParts(src, ents, i, st);
    assert Remaining(src, ents, i + 1, next) == s2 + l + r;
    assert AddressesAfter(src, ents, i) == s2 + l + r;
    assert Remaining(src, ents, i, st) == stray + closed + (s2 + l + r);
    SeqShuffle(st.done, stray, closed, s2 + l + r);
  }

  /** The pieces of an other step: the list grows by the stray text and the
      closed address, and the new open address is the one `LocAddress` states. */
  lemma {:induction false} OtherStepParts(src: string, ents: seq<NamedEntity>, i: nat, st: BuildState)
    requires i < |ents| && ents[i].tag != CARDINAL && OpenWellFormed(st)
    ensures BuildStep(src, st, ents[i]).done == st.done + StrayAt(src, ents, i) + Pending(st, [])
    ensures Pending(BuildStep(src, st, ents[i]), CardinalRun(src, ents, i + 1)) == LocAddress(src, ents, i)
    ensures NextOther(ents, i) == i && CardinalRun(src, ents, i) == []
  {
    StepCases(src, st, ents[i]);
    assert st.open.streetNumbers + [] == st.open.streetNumbers;
    assert [] + CardinalRun(src, ents, i + 1) == CardinalRun(src, ents, i + 1);
  }

  lemma SeqShuffle<T>(a: seq<T>, b: seq<T>, c: seq<T>, d: seq<T>)
    ensures a + b + c + d == a + (b + c + d)
  {
  }

  /** From any well-formed state the loop emits the list already built, then
      the next stray text, the open address with the CARDINALs that follow it,
      and the reference list of the remaining entities. */
  lemma {:induction false} BuildFromAddresses(src: string, ents: seq<NamedEntity>, i: nat, st: BuildState)
    requires i <= |ents| && OpenWellFormed(st)
    ensures Emitted(BuildFrom(src, ents, i, st)) == st.done + Remaining(src, ents, i, st)
    decreases |ents| - i
  {
    if i < |ents| {
      var next := BuildStep(src, st, ents[i]);
      StepCases(src, st, ents[i]);
      BuildFromAddresses(src, ents, i + 1, next);
      if ents[i].tag == CARDINAL {
        CardinalStep(src, ents, i, st);
      } else {
        OtherStep(src, ents, i, st);
      }
    } else {
      assert st.open.streetNumbers + [] == st.open.streetNumbers;
      assert NextOther(ents, i) == i;
      assert Remaining(src, ents, i, st) == Pending(st, []);
    }
  }

  lemma {:induction false} BuildFromPersons(src: string, ents: seq<NamedEntity>, i: nat, st: BuildState)
    requires i <= |ents|
    ensures BuildFrom(src, ents, i, st).persons == st.persons + PersonsFrom(src, ents, i)
    decreases |ents| - i
  {
    if i < |ents| {
      var next := BuildStep(src, st, ents[i]);
      var own := if ents[i].tag == PER then [SpanText(src, ents[i])] else [];
      StepPersons(src, st, ents[i]);
      BuildFromPersons(src, ents, i + 1, next);
      assert PersonsFrom(src, ents, i) == own + PersonsFrom(src, ents, i + 1);
      AssociativeSeq(st.persons, own, PersonsFrom(src, ents, i + 1));
    } else {
      assert PersonsFrom(src, ents, i) == [];
    }
  }

  /** A step adds the text of a PER entity to the persons and nothing else. */
  lemma StepPersons(src: string, st: BuildState, e: NamedEntity)
    ensures BuildStep(src, st, e).persons == st.persons + (if e.tag == PER then [SpanText(src, e)] else [])
  {
  }

  /** `_build_entry` returns the reference address list and the PER texts in
      order. */
  lemma {:induction false} BuildEntryIsReference(src: string, ents: seq<NamedEntity>)
    ensures BuildEntry(src, ents).addresses == AddressList(src, ents)
    ensures BuildEntry(src, ents).persons == PersonsFrom(src, ents, 0)
  {
    var st0 := BuildState([], Address("", []), []);
    BuildFromAddresses(src, ents, 0, st0);
    BuildFromPersons(src, ents, 0, st0);
    var m := NextOther(ents, 0);
    assert Pending(st0, CardinalRun(src, ents, 0)) == [];
    assert Remaining(src, ents, 0, st0) == StrayAt(src, ents, m) + [] + AddressesAfter(src, ents, m);
    assert StrayAt(src, ents, m) + [] == StrayAt(src, ents, m);
    assert [] + Remaining(src, ents, 0, st0) == Remaining(src, ents, 0, st0);
  }

  // The two kinds of items of the address list

  /** The Address items of a list, in order. */
  function Streets(xs: seq<AddressItem>): seq<Address>
  {
    if |xs| == 0 then [] else (if xs[0].Addr? then [xs[0].address] else []) + Streets(xs[1..])
  }

  /** The stray texts of a list, in order. */
  function StrayTexts(xs: seq<AddressItem>): seq<string>
  {
    if |xs| == 0 then [] else (if xs[0].Stray? then [xs[0].text] else []) + StrayTexts(xs[1..])
  }

  lemma {:induction false} ItemsAppend(xs: seq<AddressItem>, ys: seq<AddressItem>)
    ensures Streets(xs + ys) == Streets(xs) + Streets(ys)
    ensures StrayTexts(xs + ys) == StrayTexts(xs) + StrayTexts(ys)
    decreases |xs|
  {
    if |xs| > 0 {
      assert (xs + ys)[1..] == xs[1..] + ys;
      ItemsAppend(xs[1..], ys);
    } else {
      assert xs + ys == ys;
    }
  }

  /** CARDINALs add neither an address nor a stray text of their own. */
  lemma CardinalsAddNothing(src: string, ents: seq<NamedEntity>, a: nat, m: nat)
    requires a <= m <= |ents| && forall t :: a <= t < m ==> ents[t].tag == CARDINAL
    ensures AddressesFrom(src, ents, a) == AddressesFrom(src, ents, m)
    ensures StraysFrom(src, ents, a) == StraysFrom(src, ents, m)
  {
    LabelsDistinct();
    CardinalsNoLoc(ents, a, m);
    CardinalsAddNoAddress(src, ents, a, m);
    CardinalsAddNoStray(src, ents, a, m);
  }

  lemma {:induction false} CardinalsAddNoAddress(src: string, ents: seq<NamedEntity>, a: nat, m: nat)
    requires a <= m <= |ents| && NoLocIn(ents, a, m)
    ensures AddressesFrom(src, ents, a) == AddressesFrom(src, ents, m)
    decreases m - a
  {
    if a < m {
      NoAddressAt(src, ents, a);
      CardinalsAddNoAddress(src, ents, a + 1, m);
    }
  }

  /** No entity in `[a, m)` is a LOC. */
  predicate NoLocIn(ents: seq<NamedEntity>, a: nat, m: nat)
    requires a <= m <= |ents|
    decreases m - a
  {
    a == m || (ents[a].tag != LOC && NoLocIn(ents, a + 1, m))
  }

  lemma {:induction false} CardinalsNoLoc(ents: seq<NamedEntity>, a: nat, m: nat)
    requires CARDINAL != LOC
    requires a <= m <= |ents| && forall t :: a <= t < m ==> ents[t].tag == CARDINAL
    ensures NoLocIn(ents, a, m)
    decreases m - a
  {
    if a < m {
      CardinalsNoLoc(ents, a + 1, m);
    }
  }

  /** An entity that is not a LOC opens no address. */
  lemma NoAddressAt(src: string, ents: seq<NamedEntity>, a: nat)
    requires a < |ents| && ents[a].tag != LOC
    ensures AddressesFrom(src, ents, a) == AddressesFrom(src, ents, a + 1)
  {
    assert AddressesFrom(src, ents, a) == [] + AddressesFrom(src, ents, a + 1);
  }

  lemma {:induction false} CardinalsAddNoStray(src: string, ents: seq<NamedEntity>, a: nat, m: nat)
    requires CARDINAL != ADDRESSES
    requires a <= m <= |ents| && forall t :: a <= t < m ==> ents[t].tag == CARDINAL
    ensures StraysFrom(src, ents, a) == StraysFrom(src, ents, m)
    decreases m - a
  {
    if a < m {
      assert ents[a].tag != ADDRESSES;
      assert StraysFrom(src, ents, a) == [] + StraysFrom(src, ents, a + 1);
      CardinalsAddNoStray(src, ents, a + 1, m);
    }
  }

  /** The labels the builder tests are four different strings. */
  lemma LabelsDistinct()
    ensures CARDINAL != LOC && CARDINAL != ADDRESSES && CARDINAL != PER
    ensures LOC != ADDRESSES && LOC != PER && PER != ADDRESSES
  {
    assert CARDINAL[0] == 'C' && LOC[0] == 'L' && PER[0] == 'P' && ADDRESSES[0] == 'a';
  }

  /** After a non-CARDINAL entity `k`, the Address items are the reference
      addresses from `k` on, and the stray texts those from `k + 1` on. */
  lemma AfterItems(src: string, ents: seq<NamedEntity>, k: nat)
    requires k < |ents| && ents[k].tag != CARDINAL
    ensures Streets(AddressesAfter(src, ents, k)) == AddressesFrom(src, ents, k)
    ensures StrayTexts(AddressesAfter(src, ents, k)) == StraysFrom(src, ents, k + 1)
  {
    AfterStreets(src, ents, k);
    AfterStrays(src, ents, k);
  }

  lemma {:induction false} AfterStreets(src: string, ents: seq<NamedEntity>, k: nat)
    requires k < |ents| && ents[k].tag != CARDINAL
    ensures Streets(AddressesAfter(src, ents, k)) == AddressesFrom(src, ents, k)
    decreases |ents| - k
  {
    var m := NextOther(ents, k + 1);
    var s, l, r := StrayAt(src, ents, m), LocAddress(src, ents, k), AddressesAfter(src, ents, m);
    assert AddressesAfter(src, ents, k) == s + l + r;
    ItemsAppend(s + l, r);
    ItemsAppend(s, l);
    CardinalsAddNothing(src, ents, k + 1, m);
    PieceItems(src, ents, k, m);
    if m < |ents| {
      AfterStreets(src, ents, m);
    } else {
      assert r == [];
    }
  }

  lemma {:induction false} AfterStrays(src: string, ents: seq<NamedEntity>, k: nat)
    requires k < |ents| && ents[k].tag != CARDINAL
    ensures StrayTexts(AddressesAfter(src, ents, k)) == StraysFrom(src, ents, k + 1)
    decreases |ents| - k
  {
    var m := NextOther(ents, k + 1);
    var s, l, r := StrayAt(src, ents, m), LocAddress(src, ents, k), AddressesAfter(src, ents, m);
    assert AddressesAfter(src, ents, k) == s + l + r;
    ItemsAppend(s + l, r);
    ItemsAppend(s, l);
    CardinalsAddNothing(src, ents, k + 1, m);
    PieceItems(src, ents, k, m);
    if m < |ents| {
      AfterStrays(src, ents, m);
    } else {
      assert r == [];
    }
  }

  /** What the two single pieces of `AddressesAfter` contribute. */
  lemma PieceItems(src: string, ents: seq<NamedEntity>, k: nat, m: nat)
    requires k < m <= |ents| && ents[k].tag != CARDINAL
    ensures Streets(StrayAt(src, ents, m)) == []
    ensures StrayTexts(LocAddress(src, ents, k)) == []
    ensures Streets(LocAddress(src, ents, k)) + AddressesFrom(src, ents, k + 1) == AddressesFrom(src, ents, k)
    ensures m < |ents| ==> StrayTexts(StrayAt(src, ents, m)) + StraysFrom(src, ents, m + 1) == StraysFrom(src, ents, m)
    ensures m == |ents| ==> StrayTexts(StrayAt(src, ents, m)) == [] && StraysFrom(src, ents, m) == []
  {
    LocItems(src, ents, k);
    StrayItems(src, ents, m);
  }

  lemma LocItems(src: string, ents: seq<NamedEntity>, k: nat)
    requires k < |ents|
    ensures StrayTexts(LocAddress(src, ents, k)) == []
    ensures Streets(LocAddress(src, ents, k)) + AddressesFrom(src, ents, k + 1) == AddressesFrom(src, ents, k)
  {
    if ents[k].tag == LOC && SpanText(src, ents[k]) != "" {
      LocOpens(src, ents, k);
    } else {
      assert LocAddress(src, ents, k) == [];
      assert AddressesFrom(src, ents, k) == [] + AddressesFrom(src, ents, k + 1);
    }
  }

  lemma LocOpens(src: string, ents: seq<NamedEntity>, k: nat)
    requires k < |ents| && ents[k].tag == LOC && SpanText(src, ents[k]) != ""
    ensures StrayTexts(LocAddress(src, ents, k)) == []
    ensures Streets(LocAddress(src, ents, k)) + AddressesFrom(src, ents, k + 1) == AddressesFrom(src, ents, k)
  {
    var a := Address(SpanText(src, ents[k]), CardinalRun(src, ents, k + 1));
    assert LocAddress(src, ents, k) == [Addr(a)];
    SingleItems(Addr(a));
    assert AddressesFrom(src, ents, k) == [a] + AddressesFrom(src, ents, k + 1);
  }

  /** The projections of a one-item list. */
  lemma SingleItems(x: AddressItem)
    ensures Streets([x]) == if x.Addr? then [x.address] else []
    ensures StrayTexts([x]) == if x.Stray? then [x.text] else []
  {
    assert [x][1..] == [];
  }

  lemma StrayItems(src: string, ents: seq<NamedEntity>, m: nat)
    requires m <= |ents|
    ensures Streets(StrayAt(src, ents, m)) == []
    ensures m < |ents| ==> StrayTexts(StrayAt(src, ents, m)) + StraysFrom(src, ents, m + 1) == StraysFrom(src, ents, m)
    ensures m == |ents| ==> StrayTexts(StrayAt(src, ents, m)) == [] && StraysFrom(src, ents, m) == []
  {
    if m < |ents| && ents[m].tag == ADDRESSES {
      var x := Stray(SpanText(src, ents[m]));
      assert StrayAt(src, ents, m) == [x];
      SingleItems(x);
      assert StraysFrom(src, ents, m) == [x.text] + StraysFrom(src, ents, m + 1);
    } else {
      assert StrayAt(src, ents, m) == [];
    }
  }

  /** The address list holds, in order, one address per LOC entity with a
      non-empty text and, in order, the text of every entity labelled
      "addresses", and nothing else. */
  lemma {:induction false} AddressListItems(src: string, ents: seq<NamedEntity>)
    ensures Streets(AddressList(src, ents)) == AddressesFrom(src, ents, 0)
    ensures StrayTexts(AddressList(src, ents)) == StraysFrom(src, ents, 0)
  {
    var m := NextOther(ents, 0);
    ItemsAppend(StrayAt(src, ents, m), AddressesAfter(src, ents, m));
    CardinalsAddNothing(src, ents, 0, m);
    if m < |ents| {
      AfterItems(src, ents, m);
    }
  }

  /** Every reference address has a street name, and there are no more of
      them than LOC entities. */
  lemma {:induction false} AddressesShape(src: string, ents: seq<NamedEntity>, i: nat)
    requires i <= |ents|
    ensures forall k :: 0 <= k < |AddressesFrom(src, ents, i)| ==> AddressesFrom(src, ents, i)[k].streetName != ""
    ensures |AddressesFrom(src, ents, i)| <= CountLoc(ents, i)
    decreases |ents| - i
  {
    if i < |ents| {
      AddressesShape(src, ents, i + 1);
    }
  }

  /** The properties `_build_entry` promises of its address list: its Address
      items are the reference addresses, each with a street name and no more
      of them than LOC entities; its other items are the texts of the
      entities labelled "addresses". */
  lemma {:induction false} BuildEntryAddresses(src: string, ents: seq<NamedEntity>)
    ensures Streets(BuildEntry(src, ents).addresses) == AddressesFrom(src, ents, 0)
    ensures StrayTexts(BuildEntry(src, ents).addresses) == StraysFrom(src, ents, 0)
    ensures forall k :: 0 <= k < |Streets(BuildEntry(src, ents).addresses)| ==> Streets(BuildEntry(src, ents).addresses)[k].streetName != ""
    ensures |Streets(BuildEntry(src, ents).addresses)| <= CountLoc(ents, 0)
  {
    BuildEntryIsReference(src, ents);
    AddressListItems(src, ents);
    AddressesShape(src, ents, 0);
  }

  /** An entity labelled "addresses" puts its text on the address list. */
  lemma StrayLabelListed()
    ensures BuildEntry("x", [NamedEntity(ADDRESSES, 0, 1)]) == Entry([Stray("x")], [])
  {
    var e := NamedEntity(ADDRESSES, 0, 1);
    assert PySlice("x", 0, 1) == "x";
    assert Strip("x") == "x";
    var st0 := BuildState([], Address("", []), []);
    var st1 := BuildStep("x", st0, e);
    assert st1 == BuildState([Stray("x")], Address("", []), []);
    assert BuildFrom("x", [e], 0, st0) == BuildFrom("x", [e], 1, st1);
  }

  /** Its text goes ahead of the address it closes. */
  lemma StrayBeforeClosedAddress()
    ensures BuildEntry("ab", [NamedEntity(LOC, 0, 1), NamedEntity(ADDRESSES, 1, 2)]) == Entry([Stray("b"), Addr(Address("a", []))], [])
  {
    var e0 := NamedEntity(LOC, 0, 1);
    var e1 := NamedEntity(ADDRESSES, 1, 2);
    var ents := [e0, e1];
    assert PySlice("ab", 0, 1) == "a" && PySlice("ab", 1, 2) == "b";
    assert Strip("a") == "a" && Strip("b") == "b";
    var st0 := BuildState([], Address("", []), []);
    var st1 := BuildStep("ab", st0, e0);
    assert st1 == BuildState([], Address("a", []), []);
    var st2 := BuildStep("ab", st1, e1);
    assert st2 == BuildState([Stray("b"), Addr(Address("a", []))], Address("", []), []);
    assert BuildFrom("ab", ents, 0, st0) == BuildFrom("ab", ents, 1, st1);
    assert BuildFrom("ab", ents, 1, st1) == BuildFrom("ab", ents, 2, st2);
  }
}
