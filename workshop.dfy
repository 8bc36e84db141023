/** The request side of the bot (workshop.py): the codec between version labels
    such as "A17" and the catalog's version tags such as "0.17", the author
    lookup, and the parsing of a trigger capture into search requests. */
module Workshop {
  import opened Wrappers
  import opened Strings
  import Common

  /** One entry of a file's `tags` list in the catalog's reply (`tag['tag']`). */
  datatype Tag = Tag(tag: string)

  /** One player summary of the catalog's author lookup: the id the lookup
      compares (`author['steamid']`) and the name and profile link a result row
      shows, which is why it matters which matching record is returned. */
  datatype Author = Author(steamid: string, personaname: string, profileurl: string)

  /** One file-details record of the catalog's search reply, reduced to the
      field the lookup compares (`mod['creator']`). */
  datatype FileDetails = FileDetails(creator: string)

  // ---------------------------------------------------------------------------
  // Version-tag codec

  /** The pattern `\d\.(\d{2})` applied with `re.match`: anchored at the start of
      the tag only, so anything may follow the two digits. */
  predicate IsVersionTag(t: string) {
    |t| >= 4 && IsDigit(t[0]) && t[1] == '.' && IsDigit(t[2]) && IsDigit(t[3])
  }

  /** `_tagsToAlpha`: "A" followed by the two digits after the dot of the first
      tag, in list order, that is a version tag; nothing when no tag is one. */
  function TagsToAlpha(tags: seq<Tag>): (r: Option<string>)
    ensures r.None? <==> forall i :: 0 <= i < |tags| ==> !IsVersionTag(tags[i].tag)
    ensures r.Some? ==>
      exists i :: 0 <= i < |tags| && IsVersionTag(tags[i].tag)
        && (forall j :: 0 <= j < i ==> !IsVersionTag(tags[j].tag))
        && r.value == "A" + tags[i].tag[2..4]
  {
    if tags == [] then
      None
    else if IsVersionTag(tags[0].tag) then
      Some("A" + tags[0].tag[2..4])
    else
      var r := TagsToAlpha(tags[1..]);
      assert forall i :: 1 <= i < |tags| ==> tags[i] == tags[1..][i - 1];
      r
  }

  /** What `alphaToTag` accepts: the code turns it into text with `str()`, so a
      number works as well as a string. */
  datatype Label = Text(s: string) | Number(n: int)

  function LabelText(alpha: Label): string {
    match alpha
    case Text(s) => s
    case Number(n) => IntToString(n)
  }

  /** Two adjacent digits start at index `i` of `s`. */
  predicate DigitPairAt(s: string, i: int) {
    0 <= i && i + 1 < |s| && IsDigit(s[i]) && IsDigit(s[i + 1])
  }

  /** The leftmost match of `(\d{2})` in `s` at or after `from`, as `re.search`
      scans for it. */
  function FirstDigitPair(s: string, from: nat): (k: Option<nat>)
    requires from <= |s|
    ensures k.Some? ==>
      from <= k.value && DigitPairAt(s, k.value)
      && forall j :: from <= j < k.value ==> !DigitPairAt(s, j)
    ensures k.None? ==> forall j :: from <= j < |s| ==> !DigitPairAt(s, j)
    decreases |s| - from
  {
    if from + 1 >= |s| then None
    else if IsDigit(s[from]) && IsDigit(s[from + 1]) then Some(from)
    else FirstDigitPair(s, from + 1)
  }

  /** `alphaToTag`: "0." followed by the first two adjacent digits of the
      label's text; nothing when the text has no two adjacent digits. */
  function AlphaToTag(alpha: Label): (r: Option<string>)
    ensures r.None? <==> forall j :: 0 <= j < |LabelText(alpha)| ==> !DigitPairAt(LabelText(alpha), j)
    ensures r.Some? ==>
      exists i :: DigitPairAt(LabelText(alpha), i)
        && (forall j :: 0 <= j < i ==> !DigitPairAt(LabelText(alpha), j))
        && r.value == "0." + LabelText(alpha)[i..i + 2]
  {
    var s := LabelText(alpha);
    match FirstDigitPair(s, 0)
    case None => None
    case Some(i) => Some("0." + s[i..i + 2])
  }

  /** A label with a first digit pair `dd` becomes the tag "0.dd", and that tag
      on its own is read back as the label "Add". */
  lemma {:induction false} LabelTagRoundTrip(alpha: Label, i: nat)
    requires DigitPairAt(LabelText(alpha), i)
    requires forall j :: 0 <= j < i ==> !DigitPairAt(LabelText(alpha), j)
    ensures var dd := LabelText(alpha)[i..i + 2];
      AlphaToTag(alpha) == Some("0." + dd) && TagsToAlpha([Tag("0." + dd)]) == Some("A" + dd)
  {
    var s := LabelText(alpha);
    var dd := s[i..i + 2];
    var t := "0." + dd;
    assert IsVersionTag(t) && t[2..4] == dd;
  }

  /** The other way round: the label read from a tag list turns back into a tag
      that keeps the two digits after the dot but always has major digit 0. */
  lemma {:induction false} TagLabelRoundTrip(tags: seq<Tag>, i: nat)
    requires i < |tags| && IsVersionTag(tags[i].tag)
    requires forall j :: 0 <= j < i ==> !IsVersionTag(tags[j].tag)
    ensures TagsToAlpha(tags) == Some("A" + tags[i].tag[2..4])
    ensures AlphaToTag(Text(TagsToAlpha(tags).value)) == Some("0." + tags[i].tag[2..4])
  {
    var a := "A" + tags[i].tag[2..4];
    assert DigitPairAt(a, 1) && !DigitPairAt(a, 0);
    assert a[1..3] == tags[i].tag[2..4];
  }

  /** "A17" becomes "0.17", ... */
  lemma AlphaExample()
    ensures AlphaToTag(Text("A17")) == Some("0.17")
  {
    assert DigitPairAt("A17", 1) && !DigitPairAt("A17", 0) && "A17"[1..3] == "17";
    LabelTagRoundTrip(Text("A17"), 1);
    assert "0." + "17" == "0.17";
  }

  /** ... and so does "A175": only the first two digits are taken, ... */
  lemma LongAlphaExample()
    ensures AlphaToTag(Text("A175")) == Some("0.17")
  {
    assert DigitPairAt("A175", 1) && !DigitPairAt("A175", 0) && "A175"[1..3] == "17";
    LabelTagRoundTrip(Text("A175"), 1);
    assert "0." + "17" == "0.17";
  }

  /** ... and the number 17, through its decimal text, ... */
  lemma NumberAlphaExample()
    ensures AlphaToTag(Number(17)) == Some("0.17")
  {
    assert LabelText(Number(17)) == "17" by {
      assert NatToString(1) + [DigitChar(7)] == "17";
    }
    assert DigitPairAt("17", 0) && "17"[0..2] == "17";
    LabelTagRoundTrip(Number(17), 0);
    assert "0." + "17" == "0.17";
  }

  /** ... while digits that are not adjacent give nothing. */
  lemma SplitDigitsExample()
    ensures AlphaToTag(Text("A1 7")) == None
  {
    assert !DigitPairAt("A1 7", 0) && !DigitPairAt("A1 7", 1) && !DigitPairAt("A1 7", 2);
  }

  /** The tag "0.175" reads as "A17", since the tag pattern is not anchored at
      the end, and tags that are not version tags are passed over. */
  lemma TagExample()
    ensures TagsToAlpha([Tag("Mod"), Tag("0.175")]) == Some("A17")
  {
    var tags := [Tag("Mod"), Tag("0.175")];
    assert !IsVersionTag(tags[0].tag) && IsVersionTag(tags[1].tag) && tags[1].tag[2..4] == "17";
    TagLabelRoundTrip(tags, 1);
    assert "A" + "17" == "A17";
  }

  // ---------------------------------------------------------------------------
  // Author lookup

  /** `_findAuthor`: the first author, in list order, whose steamid is the
      file's creator; nothing when there is none. */
  function FindAuthor(mod: FileDetails, authors: seq<Author>): (r: Option<Author>)
    ensures r.None? <==> forall i :: 0 <= i < |authors| ==> authors[i].steamid != mod.creator
    ensures r.Some? ==>
      exists i :: 0 <= i < |authors| && authors[i] == r.value
        && r.value.steamid == mod.creator
        && forall j :: 0 <= j < i ==> authors[j].steamid != mod.creator
  {
    if authors == [] then
      None
    else if authors[0].steamid == mod.creator then
      Some(authors[0])
    else
      var r := FindAuthor(mod, authors[1..]);
      assert forall i :: 1 <= i < |authors| ==> authors[i] == authors[1..][i - 1];
      r
  }

  /** Of two records for the file's creator, the one listed first is found,
      whatever the other holds. */
  lemma FirstAuthorWins(mod: FileDetails, a: Author, b: Author)
    requires a.steamid == mod.creator && b.steamid == mod.creator
    ensures FindAuthor(mod, [a, b]) == Some(a)
  {
  }

  // ---------------------------------------------------------------------------
  // Search requests

  /** The `count` argument of `ModRequest.__init__`: an integer, or a string
      that the constructor converts with `int()`. */
  datatype Count = CountInt(n: int) | CountText(s: string)

  /** `int()` succeeds on the string; only strings of decimal digits are
      modelled. */
  predicate ParsableCount(count: Count) {
    count.CountText? ==> count.s != [] && AllDigits(count.s)
  }

  function CountValue(count: Count): int
    requires ParsableCount(count)
  {
    match count
    case CountInt(n) => n
    case CountText(s) => DecimalValue(s)
  }

  /** The kind tag every request carries. */
  function KindTag(mod: bool): string {
    if mod then "Mod" else "Scenario"
  }

  /** A search request: the kind (mod or scenario), the search text, the number
      of results wanted and the catalog tags to filter on. */
  datatype ModRequest = ModRequest(mod: bool, query: string, count: int, tags: seq<string>)

  /** `ModRequest.__init__`: the count is capped at MAX_RESULTS from above only,
      and the tags are a copy of the given ones with the kind tag appended. */
  function NewModRequest(mod: bool, query: string, count: Count, tags: seq<string>): (r: ModRequest)
    requires ParsableCount(count)
    ensures r.mod == mod && r.query == query
    ensures r.count <= Common.MAX_RESULTS
    ensures CountValue(count) > Common.MAX_RESULTS ==> r.count == Common.MAX_RESULTS
    ensures CountValue(count) <= Common.MAX_RESULTS ==> r.count == CountValue(count)
    ensures |r.tags| == |tags| + 1 && r.tags[..|tags|] == tags
    ensures r.tags[|tags|] == (if mod then "Mod" else "Scenario")
  {
    var n := CountValue(count);
    ModRequest(mod, query, if n > Common.MAX_RESULTS then Common.MAX_RESULTS else n, tags + [KindTag(mod)])
  }

  /** `ModRequest.__init__` step by step as the constructor runs: convert the
      count, cap it, copy the tags and append the kind tag to the copy. It
      builds the request NewModRequest describes. */
  method BuildModRequest(mod: bool, query: string, count: Count, tags: seq<string>)
    returns (r: ModRequest)
    requires ParsableCount(count)
    ensures r == NewModRequest(mod, query, count, tags)
  {
    var n := if count.CountText? then DecimalValue(count.s) else count.n;
    if n > Common.MAX_RESULTS {
      n := Common.MAX_RESULTS;
    }
    var copy := tags;
    if mod {
      copy := copy + ["Mod"];
    } else {
      copy := copy + ["Scenario"];
    }
    r := ModRequest(mod, query, n, copy);
  }

  /** What the trigger grammar hands over: a bare string, a tuple of captured
      groups, or anything else. */
  datatype Capture = Bare(s: string) | Group(items: seq<string>) | Unrecognised

  predicate NoComma(parts: seq<string>) {
    forall i :: 0 <= i < |parts| ==> ',' !in parts[i]
  }

  /** `[part.strip() for part in parts if part.strip()]`: the stripped parts that
      are not empty, in order. */
  function KeptQueries(parts: seq<string>): (qs: seq<string>)
    ensures |qs| <= |parts|
    ensures forall i :: 0 <= i < |qs| ==> IsStripped(qs[i])
    ensures NoComma(parts) ==> NoComma(qs)
  {
    if parts == [] then
      []
    else
      var q := Strip(parts[0]);
      var rest := KeptQueries(parts[1..]);
      assert NoComma(parts) ==> NoComma(parts[1..]);
      assert NoComma(parts) ==> ',' !in q by {
        if ',' !in parts[0] { StripKeepsOut(parts[0], ','); }
      }
      if q != [] then [q] + rest else rest
  }

  lemma StripKeepsOut(s: string, c: char)
    requires c !in s
    ensures c !in Strip(s)
  {
  }

  /** The query list of a counted trigger, split on commas. */
  function Queries(list: string): seq<string> {
    KeptQueries(Split(list, ','))
  }

  /** The count of a counted trigger: the captured text, or 1 when it is empty. */
  function GroupCount(first: string): Count {
    if first != "" then CountText(first) else CountInt(1)
  }

  /** `int()` does not raise: a counted trigger that yields at least one query
      has a count that is empty or all digits. */
  predicate ValidCapture(c: Capture) {
    (c.Group? && |c.items| == 3 && c.items[0] != "" && Queries(c.items[2]) != [])
      ==> AllDigits(c.items[0])
  }

  /** `ModRequest.fromQuery`: one default mod request for a bare string, none for
      something that is neither string nor tuple, one request for a pair, one
      request per non-empty comma-separated query for a triple, and `None` (the
      function falls off its end) for a tuple of any other length. */
  function FromQuery(c: Capture): (r: Option<seq<ModRequest>>)
    requires ValidCapture(c)
    ensures c.Bare? ==> r == Some([ModRequest(true, c.s, 1, ["Mod"])])
    ensures c.Unrecognised? ==> r == Some([])
    ensures c.Group? && |c.items| == 2 ==>
      r == Some([ModRequest(c.items[0] == "mod", c.items[1], 1, [KindTag(c.items[0] == "mod")])])
    ensures c.Group? && |c.items| == 3 ==>
      r.Some? && |r.value| == |Queries(c.items[2])|
      && forall i :: 0 <= i < |r.value| ==>
           r.value[i] == NewModRequest(c.items[1] == "mod", Queries(c.items[2])[i], GroupCount(c.items[0]), [])
    ensures c.Group? && |c.items| != 2 && |c.items| != 3 ==> r == None
  {
    match c
    case Bare(s) => Some([NewModRequest(true, s, CountInt(1), [])])
    case Unrecognised => Some([])
    case Group(items) =>
      if |items| == 2 then
        Some([NewModRequest(items[0] == "mod", items[1], CountInt(1), [])])
      else if |items| == 3 then
        var mod := items[1] == "mod";
        var queries := Queries(items[2]);
        var count := GroupCount(items[0]);
        Some(seq(|queries|, i requires 0 <= i < |queries| => NewModRequest(mod, queries[i], count, [])))
      else
        None
  }

  /** Keeping queries commutes with concatenation: the kept queries of the
      first segments come before those of the later ones. */
  lemma {:induction false} KeptQueriesAppend(a: seq<string>, b: seq<string>)
    ensures KeptQueries(a + b) == KeptQueries(a) + KeptQueries(b)
  {
    if a == [] {
      assert a + b == b;
    } else {
      assert (a + b)[0] == a[0] && (a + b)[1..] == a[1..] + b;
      KeptQueriesAppend(a[1..], b);
    }
  }

  /** Every request of a counted trigger is a stripped, comma-free query with
      the shared kind and the shared count: the captured number capped at
      MAX_RESULTS, or 1 when nothing was captured, never raised to 1. */
  lemma TripleRequests(c: Capture, i: nat)
    requires ValidCapture(c) && c.Group? && |c.items| == 3
    requires i < |FromQuery(c).value|
    ensures var r := FromQuery(c).value[i];
      && IsStripped(r.query) && ',' !in r.query
      && r.mod == (c.items[1] == "mod")
      && r.tags == [KindTag(r.mod)]
      && (c.items[0] == "" ==> r.count == 1)
      && (c.items[0] != "" ==> r.count == if DecimalValue(c.items[0]) > Common.MAX_RESULTS
                                           then Common.MAX_RESULTS else DecimalValue(c.items[0]))
  {
    var parts := Split(c.items[2], ',');
    assert NoComma(parts);
  }

  /** A separator-free text is one segment. */
  lemma {:induction false} SplitNoSeparator(x: string, sep: char)
    requires sep !in x
    ensures Split(x, sep) == [x]
  {
    if x != [] {
      SplitNoSeparator(x[1..], sep);
    }
  }

  /** Splitting cuts at the first separator: what comes before it is the first
      segment, and the rest is split in turn. */
  lemma {:induction false} SplitFirstSeparator(x: string, sep: char, y: string)
    requires sep !in x
    ensures Split(x + [sep] + y, sep) == [x] + Split(y, sep)
  {
    if x == [] {
      assert x + [sep] + y == [sep] + y;
      assert ([sep] + y)[1..] == y;
    } else {
      var s := x + [sep] + y;
      assert s[0] == x[0] && s[1..] == x[1..] + [sep] + y;
      SplitFirstSeparator(x[1..], sep, y);
      assert [x[0]] + x[1..] == x;
    }
  }

  /** A segment that is a query padded with whitespace contributes that query. */
  lemma KeptQueriesPadded(pre: string, q: string, post: string, rest: seq<string>)
    requires AllSpace(pre) && AllSpace(post) && IsStripped(q)
    ensures KeptQueries([pre + q + post] + rest) == [q] + KeptQueries(rest)
  {
    StripPadded(pre, q, post);
    assert ([pre + q + post] + rest)[1..] == rest;
  }

  /** A segment of whitespace only contributes nothing. */
  lemma KeptQueriesBlank(p: string, rest: seq<string>)
    requires AllSpace(p)
    ensures KeptQueries([p] + rest) == KeptQueries(rest)
  {
    assert ([p] + rest)[1..] == rest;
  }

  /** The text of the list "a, b ,, c", cut at its commas. */
  lemma ListShape(a: string, b: string, c: string)
    ensures a + ", " + b + " ,, " + c == a + [','] + ((" " + b + " ") + [','] + ("" + [','] + (" " + c)))
  {
    assert ", " == [','] + " ";
    assert " ,, " == " " + [','] + [','] + " ";
  }

  /** A list such as "a, b ,, c" splits into four segments: the first query,
      the second with the spaces around it, an empty one and the third with
      the space before it. */
  lemma ExampleSplit(a: string, b: string, c: string)
    requires ',' !in a && ',' !in b && ',' !in c
    ensures Split(a + ", " + b + " ,, " + c, ',') == [a, " " + b + " ", "", " " + c]
  {
    var b' := " " + b + " ";
    var c' := " " + c;
    var tail := "" + [','] + c';
    assert ',' !in b' && ',' !in c';
    ListShape(a, b, c);
    SplitNoSeparator(c', ',');
    SplitFirstSeparator("", ',', c');
    SplitFirstSeparator(b', ',', tail);
    SplitFirstSeparator(a, ',', b' + [','] + tail);
  }

  // Of those segments the empty one is dropped and the others are stripped,
  // from the last segment back.

  lemma ExampleKeptLast(c: string)
    requires IsStripped(c)
    ensures KeptQueries([" " + c]) == [c]
  {
    assert AllSpace(" ") && AllSpace("");
    KeptQueriesPadded(" ", c, "", []);
    assert " " + c + "" == " " + c && [" " + c] == [" " + c] + [];
  }

  lemma ExampleKeptBlank(c: string)
    requires IsStripped(c)
    ensures KeptQueries(["", " " + c]) == [c]
  {
    ExampleKeptLast(c);
    assert AllSpace("");
    KeptQueriesBlank("", [" " + c]);
    assert ["", " " + c] == [""] + [" " + c];
  }

  lemma ExampleKeptMiddle(b: string, c: string)
    requires IsStripped(b) && IsStripped(c)
    ensures KeptQueries([" " + b + " ", "", " " + c]) == [b, c]
  {
    ExampleKeptBlank(c);
    assert AllSpace(" ");
    KeptQueriesPadded(" ", b, " ", ["", " " + c]);
    ConsThree(" " + b + " ", "", " " + c);
  }

  lemma ExampleKept(a: string, b: string, c: string)
    requires IsStripped(a) && IsStripped(b) && IsStripped(c)
    ensures KeptQueries([a, " " + b + " ", "", " " + c]) == [a, b, c]
  {
    ExampleKeptMiddle(b, c);
    KeptQueriesStripped(a, [" " + b + " ", "", " " + c]);
    ConsFour(a, " " + b + " ", "", " " + c);
  }

  /** A display of segments is its first segment followed by the others. */
  lemma ConsThree(x: string, y: string, z: string)
    ensures [x, y, z] == [x] + [y, z]
  {
  }

  lemma ConsFour(w: string, x: string, y: string, z: string)
    ensures [w, x, y, z] == [w] + [x, y, z]
  {
  }

  /** A segment that is already stripped contributes itself. */
  lemma KeptQueriesStripped(q: string, rest: seq<string>)
    requires IsStripped(q)
    ensures KeptQueries([q] + rest) == [q] + KeptQueries(rest)
  {
    var e: string := [];
    assert AllSpace(e);
    KeptQueriesPadded(e, q, e, rest);
    assert e + q + e == q;
  }

  /** ("3", "scenario", "a, b ,, c") for any three queries a, b and c yields
      three scenario requests with count 3, one per query, in order. */
  lemma CountedTriggerExample(a: string, b: string, c: string)
    requires IsStripped(a) && IsStripped(b) && IsStripped(c)
    requires ',' !in a && ',' !in b && ',' !in c
    ensures FromQuery(Group(["3", "scenario", a + ", " + b + " ,, " + c])) == Some([
      ModRequest(false, a, 3, ["Scenario"]),
      ModRequest(false, b, 3, ["Scenario"]),
      ModRequest(false, c, 3, ["Scenario"])])
  {
    var list := a + ", " + b + " ,, " + c;
    assert Queries(list) == [a, b, c] by {
      ExampleSplit(a, b, c);
      ExampleKept(a, b, c);
    }
    assert DecimalValue("3") == 3;
    var r := FromQuery(Group(["3", "scenario", list])).value;
    assert |r| == 3;
    assert r[0] == ModRequest(false, a, 3, ["Scenario"]);
    assert r[1] == ModRequest(false, b, 3, ["Scenario"]);
    assert r[2] == ModRequest(false, c, 3, ["Scenario"]);
    assert r == [r[0], r[1], r[2]];
  }

  /** A comma-free query on its own is the only query of its list. */
  lemma SingleQuery(q: string)
    requires IsStripped(q) && ',' !in q
    ensures Queries(q) == [q]
  {
    SplitNoSeparator(q, ',');
    KeptQueriesPadded("", q, "", []);
    assert "" + q + "" == q && [q] == [q] + [];
  }

  /** ("0", "mod", q) yields a request for zero results: there is no lower
      bound on the count. */
  lemma ZeroCountExample(q: string)
    requires IsStripped(q) && ',' !in q
    ensures FromQuery(Group(["0", "mod", q])) == Some([ModRequest(true, q, 0, ["Mod"])])
  {
    SingleQuery(q);
    assert DecimalValue("0") == 0;
    var r := FromQuery(Group(["0", "mod", q])).value;
    assert |r| == 1;
    assert r[0] == ModRequest(true, q, 0, ["Mod"]);
    assert r == [r[0]];
  }
}
