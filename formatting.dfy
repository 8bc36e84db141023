/** The reply side of the bot (bot/formatting.py): one markdown block per
    request, rendering its search results, and the packing of those blocks
    into comments that fit Reddit's size limit. */
module Formatting {
  import opened Wrappers
  import opened Strings
  import Common
  import Workshop

  /** A search result, with the fields the row templates use. Whether the title
      already names the game version comes from `Mod.nameIncludesAlpha`, which
      is given here as a plain flag. */
  datatype Mod = Mod(title: string, url: string, authorName: string, authorUrl: string,
                     alpha: Option<string>, nameIncludesAlpha: bool)

  /** `'{alpha}'.format(...)`: the version label, or "None" when no tag gave one. */
  function AlphaText(alpha: Option<string>): string
  {
    match alpha
    case Some(a) => a
    case None => "None"
  }

  // The pieces every result row is made of.

  function AlphaPrefix(m: Mod): string {
    if m.nameIncludesAlpha then "" else "[" + AlphaText(m.alpha) + "] "
  }

  function Link(text: string, target: string): string {
    "[" + text + "](" + target + ")"
  }

  function Separator(tabular: bool): string {
    if tabular then " | by " else " by "
  }

  /** `formatMod`: one result row, from one of four templates. */
  function FormatMod(m: Mod, tabular: bool): (row: string)
    ensures |row| > 0 && row[|row| - 1] == '\n'
  {
    if tabular then
      if !m.nameIncludesAlpha then
        "[" + AlphaText(m.alpha) + "] [" + m.title + "](" + m.url + ") | by [" + m.authorName + "](" + m.authorUrl + ")\n"
      else
        "[" + m.title + "](" + m.url + ") | by [" + m.authorName + "](" + m.authorUrl + ")\n"
    else
      if !m.nameIncludesAlpha then
        "[" + AlphaText(m.alpha) + "] [" + m.title + "](" + m.url + ") by [" + m.authorName + "](" + m.authorUrl + ")\n"
      else
        "[" + m.title + "](" + m.url + ") by [" + m.authorName + "](" + m.authorUrl + ")\n"
  }

  // The four templates regrouped into the pieces of a row.

  lemma LabelledTableRow(alpha: string, t: string, u: string, n: string, au: string)
    ensures "[" + alpha + "] [" + t + "](" + u + ") | by [" + n + "](" + au + ")\n"
            == ("[" + alpha + "] ") + Link(t, u) + " | by " + Link(n, au) + "\n"
  {
    assert "] [" == "] " + "[" && ") | by [" == ")" + " | by " + "[";
  }

  lemma TableRow(t: string, u: string, n: string, au: string)
    ensures "[" + t + "](" + u + ") | by [" + n + "](" + au + ")\n"
            == "" + Link(t, u) + " | by " + Link(n, au) + "\n"
  {
    assert ") | by [" == ")" + " | by " + "[";
  }

  lemma LabelledProseRow(alpha: string, t: string, u: string, n: string, au: string)
    ensures "[" + alpha + "] [" + t + "](" + u + ") by [" + n + "](" + au + ")\n"
            == ("[" + alpha + "] ") + Link(t, u) + " by " + Link(n, au) + "\n"
  {
    assert "] [" == "] " + "[" && ") by [" == ")" + " by " + "[";
  }

  lemma ProseRow(t: string, u: string, n: string, au: string)
    ensures "[" + t + "](" + u + ") by [" + n + "](" + au + ")\n"
            == "" + Link(t, u) + " by " + Link(n, au) + "\n"
  {
    assert ") by [" == ")" + " by " + "[";
  }

  /** The four templates share one shape: the version label in brackets, only
      when the title does not already name the version; the title linked to
      the mod page; " | by " in a table and " by " in prose; the author linked
      to the profile; a line break. The fields go in verbatim. */
  lemma FormatModShape(m: Mod, tabular: bool)
    ensures FormatMod(m, tabular) == AlphaPrefix(m) + Link(m.title, m.url) + Separator(tabular)
                                     + Link(m.authorName, m.authorUrl) + "\n"
  {
    if tabular && !m.nameIncludesAlpha {
      LabelledTableRow(AlphaText(m.alpha), m.title, m.url, m.authorName, m.authorUrl);
    } else if tabular {
      TableRow(m.title, m.url, m.authorName, m.authorUrl);
    } else if !m.nameIncludesAlpha {
      LabelledProseRow(AlphaText(m.alpha), m.title, m.url, m.authorName, m.authorUrl);
    } else {
      ProseRow(m.title, m.url, m.authorName, m.authorUrl);
    }
  }

  /** The tabular rows of `mods`, in order. */
  function Rows(mods: seq<Mod>): string {
    if mods == [] then "" else Rows(mods[..|mods| - 1]) + FormatMod(mods[|mods| - 1], true)
  }

  /** The rows of a concatenation are the rows of each part, in order. */
  lemma {:induction false} RowsAppend(a: seq<Mod>, b: seq<Mod>)
    ensures Rows(a + b) == Rows(a) + Rows(b)
  {
    if b != [] {
      var ab := a + b;
      var n := |b| - 1;
      var last := FormatMod(b[n], true);
      assert ab[..|ab| - 1] == a + b[..n];
      assert ab[|ab| - 1] == b[n];
      assert Rows(ab) == Rows(a + b[..n]) + last;
      assert Rows(b) == Rows(b[..n]) + last;
      RowsAppend(a, b[..n]);
    } else {
      assert a + b == a;
    }
  }

  /** The number of line breaks in `s`. */
  function LineBreaks(s: string): nat {
    if s == [] then 0 else LineBreaks(s[..|s| - 1]) + (if s[|s| - 1] == '\n' then 1 else 0)
  }

  lemma {:induction false} LineBreaksAppend(a: string, b: string)
    ensures LineBreaks(a + b) == LineBreaks(a) + LineBreaks(b)
  {
    if b != [] {
      var ab := a + b;
      assert ab[..|ab| - 1] == a + b[..|b| - 1];
      LineBreaksAppend(a, b[..|b| - 1]);
    } else {
      assert a + b == a;
    }
  }

  lemma {:induction false} NoLineBreaks(s: string)
    requires '\n' !in s
    ensures LineBreaks(s) == 0
  {
    if s != [] {
      assert s[|s| - 1] in s;
      NoLineBreaks(s[..|s| - 1]);
    }
  }

  /** A mod none of whose rendered fields holds a line break. */
  predicate SingleLine(m: Mod) {
    '\n' !in m.title && '\n' !in m.url && '\n' !in m.authorName && '\n' !in m.authorUrl
    && '\n' !in AlphaText(m.alpha)
  }

  /** A row is exactly one line. */
  lemma RowIsOneLine(m: Mod, tabular: bool)
    requires SingleLine(m)
    ensures LineBreaks(FormatMod(m, tabular)) == 1
  {
    var prefix := AlphaPrefix(m);
    var title := Link(m.title, m.url);
    var separator := Separator(tabular);
    var author := Link(m.authorName, m.authorUrl);
    assert '\n' !in "[" && '\n' !in "] " && '\n' !in "](" && '\n' !in ")";
    assert '\n' !in prefix;
    assert '\n' !in title && '\n' !in author && '\n' !in separator;
    var line := prefix + title + separator + author;
    assert '\n' !in line;
    FormatModShape(m, tabular);
    NoLineBreaks(line);
    LineBreaksAppend(line, "\n");
  }

  /** The table has one line per mod. */
  lemma {:induction false} RowsAreLines(mods: seq<Mod>)
    requires forall i :: 0 <= i < |mods| ==> SingleLine(mods[i])
    ensures LineBreaks(Rows(mods)) == |mods|
  {
    if mods != [] {
      RowsAreLines(mods[..|mods| - 1]);
      RowIsOneLine(mods[|mods| - 1], true);
      LineBreaksAppend(Rows(mods[..|mods| - 1]), FormatMod(mods[|mods| - 1], true));
    }
  }

  const TABLE_HEADER: string := "Mod | Author \n :-|-: \n"

  /** The reply when the search found nothing: the query and its search page,
      and a pointer to the command for older versions. */
  function NoResults(query: string, requestUrl: string): string {
    "Sorry, but a search for [`" + query + "`](" + requestUrl + ") gave no results. "
    + "[Looking for A17 mods?](https://github.com/FluffierThanThou/reddit-modlinker/blob/master/bot/COMMANDS.MD#link-to-a-mod-or-scenario-for-a-specific-alpha-of-rimworld)"
  }

  /** The caption under a single result. */
  function TopResultCaption(query: string, requestUrl: string): string {
    "\n\n^(Results for) [^(`" + query + "`)](" + requestUrl + ")^(. I'm showing you the top result, there may be more.)"
  }

  /** The caption under a table, naming how many results it shows. */
  function TopResultsCaption(query: string, requestUrl: string, count: string): string {
    "\n\n^(Results for) [^(`" + query + "`)](" + requestUrl + ")^(. I'm showing you the top "
    + count + " results, there may be more.)"
  }

  /** `formatResults`: the markdown block for one request and its results, where
      `requestUrl` is what `request.getUrl()` returned. No result gives the
      fixed apology naming the query; one result gives its prose row and the
      single-result caption; several give the table header, one tabular row per
      mod in order, and a caption whose number reads back as the number of mods
      (not the count the request asked for). */
  method FormatResults(request: Workshop.ModRequest, requestUrl: string, mods: seq<Mod>)
    returns (result: string)
    ensures |mods| == 0 ==> result == NoResults(request.query, requestUrl)
    ensures |mods| == 1 ==>
      result == FormatMod(mods[0], false) + TopResultCaption(request.query, requestUrl)
    ensures |mods| > 1 ==>
      var count := NatToString(|mods|);
      result == TABLE_HEADER + Rows(mods) + TopResultsCaption(request.query, requestUrl, count)
      && DecimalValue(count) == |mods|
  {
    if |mods| > 1 {
      result := TABLE_HEADER;
      for i := 0 to |mods|
        invariant result == TABLE_HEADER + Rows(mods[..i])
      {
        var row := FormatMod(mods[i], true);
        assert mods[..i + 1][..i] == mods[..i] && mods[..i + 1][i] == mods[i];
        assert Rows(mods[..i + 1]) == Rows(mods[..i]) + row;
        result := result + row;
      }
      assert mods[..|mods|] == mods;
      result := result + TopResultsCaption(request.query, requestUrl, NatToString(|mods|));
      DecimalRoundTrip(|mods|);
    } else if |mods| == 1 {
      result := FormatMod(mods[0], false);
      result := result + TopResultCaption(request.query, requestUrl);
    } else {
      result := NoResults(request.query, requestUrl);
    }
  }

  /** The caller's `collections.deque` of reply blocks, as much of it as
      `createPosts` uses. */
  class Deque {
    var items: seq<string>

    constructor (items: seq<string>)
      ensures this.items == items
    {
      this.items := items;
    }

    method PopLeft() returns (x: string)
      requires items != []
      modifies this
      ensures x == old(items)[0] && items == old(items)[1..]
    {
      x := items[0];
      items := items[1..];
    }

    method AppendLeft(x: string)
      modifies this
      ensures items == [x] + old(items)
    {
      items := [x] + items;
    }
  }

  /** What packing produces: the posts, and the blocks still queued. */
  datatype Outcome = Outcome(posts: seq<string>, left: seq<string>)

  /** The measure that shrinks at every step of the packing loop: popping a
      block lowers it by at least one, and a block is only pushed back when a
      non-empty reply is emptied. */
  function PackMeasure(parts: seq<string>, reply: string): nat {
    2 * |parts| + (if reply == "" then 0 else 1)
  }

  /** The packing loop of `createPosts` from the state (`parts`, `reply`): while
      blocks remain and the reply plus footer is under `maxLength`, take the
      next block and append it to the reply behind "\n\n" if the block, the
      reply and the footer together fit; drop it if the block and the footer
      alone do not; otherwise put it back and post the reply with the footer.
      A reply left over at the end is posted too, so a reply in progress is
      never lost. */
  function Pack(parts: seq<string>, reply: string, footer: string, maxLength: int): (r: Outcome)
    ensures reply != "" ==> r.posts != []
    decreases PackMeasure(parts, reply)
  {
    if parts != [] && |reply| + |footer| < maxLength then
      var part := parts[0];
      if |part| + |reply| + |footer| <= maxLength then
        Pack(parts[1..], reply + "\n\n" + part, footer, maxLength)
      else if |part| + |footer| > maxLength then
        Pack(parts[1..], reply, footer, maxLength)
      else
        var rest := Pack(parts, "", footer, maxLength);
        Outcome([reply + footer] + rest.posts, rest.left)
    else
      Outcome(if reply != "" then [reply + footer] else [], parts)
  }

  /** `createPosts` with the footer and the size limit as parameters: it pops
      blocks from the caller's deque and pushes one back whenever a comment is
      full, and it leaves in the deque the blocks it did not get to. The posts
      and the deque it leaves are those of Pack from an empty reply. */
  method CreatePosts(parts: Deque, footer: string, maxLength: int) returns (posts: seq<string>)
    modifies parts
    ensures var o := Pack(old(parts.items), "", footer, maxLength);
      posts == o.posts && parts.items == o.left
  {
    posts := [];
    var reply := "";
    while parts.items != [] && |reply| + |footer| < maxLength
      invariant var o := Pack(parts.items, reply, footer, maxLength);
        Pack(old(parts.items), "", footer, maxLength) == Outcome(posts + o.posts, o.left)
      decreases PackMeasure(parts.items, reply)
    {
      var part := parts.PopLeft();
      if |part| + |reply| + |footer| <= maxLength {
        reply := reply + "\n\n" + part;
      } else if |part| + |footer| > maxLength {
        continue;
      } else {
        parts.AppendLeft(part);
        ghost var o := Pack(parts.items, "", footer, maxLength);
        assert posts + ([reply + footer] + o.posts) == (posts + [reply + footer]) + o.posts;
        posts := posts + [reply + footer];
        reply := "";
      }
    }
    if reply != "" {
      posts := posts + [reply + footer];
    }
  }

  /** A reply being built: empty, or blocks each behind "\n\n" whose length with
      the footer is at most `maxLength` + 2. */
  predicate ReplyInProgress(reply: string, footer: string, maxLength: int) {
    reply == "" || (|reply| >= 2 && reply[..2] == "\n\n" && |reply| + |footer| <= maxLength + 2)
  }

  /** A post: a non-empty reply starting with "\n\n", then the footer, at most
      `maxLength` + 2 long — so never the footer alone. */
  predicate IsPost(p: string, footer: string, maxLength: int) {
    |footer| + 2 <= |p| <= maxLength + 2 && p[..2] == "\n\n" && p[|p| - |footer|..] == footer
  }

  predicate AllPosts(posts: seq<string>, footer: string, maxLength: int) {
    forall i :: 0 <= i < |posts| ==> IsPost(posts[i], footer, maxLength)
  }

  /** Every post is a reply of blocks followed by the footer, and no post is
      more than two characters over the limit: the fit check leaves out the
      "\n\n" that goes in front of the block. */
  lemma {:induction false} PackPosts(parts: seq<string>, reply: string, footer: string, maxLength: int)
    requires ReplyInProgress(reply, footer, maxLength)
    ensures AllPosts(Pack(parts, reply, footer, maxLength).posts, footer, maxLength)
    decreases PackMeasure(parts, reply)
  {
    if parts != [] && |reply| + |footer| < maxLength {
      var part := parts[0];
      if |part| + |reply| + |footer| <= maxLength {
        var next := reply + "\n\n" + part;
        assert next[..2] == "\n\n" by {
          if reply == "" {
            assert next == "\n\n" + part;
          } else {
            assert next[..2] == reply[..2];
          }
        }
        PackPosts(parts[1..], next, footer, maxLength);
      } else if |part| + |footer| > maxLength {
        PackPosts(parts[1..], reply, footer, maxLength);
      } else {
        PackPosts(parts, "", footer, maxLength);
        var p := reply + footer;
        assert p[..2] == reply[..2] && p[|p| - |footer|..] == footer;
      }
    } else if reply != "" {
      var p := reply + footer;
      assert p[..2] == reply[..2] && p[|p| - |footer|..] == footer;
    }
  }

  /** The blocks left queued are a suffix of the blocks given, in their order;
      and when the footer is shorter than the limit, blocks are only left when
      the last post reached the limit. */
  lemma {:induction false} PackLeaves(parts: seq<string>, reply: string, footer: string, maxLength: int)
    ensures var o := Pack(parts, reply, footer, maxLength);
      |o.left| <= |parts| && o.left == parts[|parts| - |o.left|..]
    ensures var o := Pack(parts, reply, footer, maxLength);
      |footer| < maxLength && o.left != [] ==> o.posts != [] && |o.posts[|o.posts| - 1]| >= maxLength
    decreases PackMeasure(parts, reply)
  {
    if parts != [] && |reply| + |footer| < maxLength {
      var part := parts[0];
      if |part| + |reply| + |footer| <= maxLength {
        PackLeaves(parts[1..], reply + "\n\n" + part, footer, maxLength);
      } else if |part| + |footer| > maxLength {
        PackLeaves(parts[1..], reply, footer, maxLength);
      } else {
        PackLeaves(parts, "", footer, maxLength);
      }
    }
  }

  /** A post has no reply exactly when it was given none and every block is too
      long to fit with the footer; so `createPosts` of no blocks posts nothing. */
  lemma {:induction false} PackNothing(parts: seq<string>, reply: string, footer: string, maxLength: int)
    requires |footer| < maxLength
    ensures Pack(parts, reply, footer, maxLength).posts == []
            <==> reply == "" && forall i :: 0 <= i < |parts| ==> |parts[i]| + |footer| > maxLength
    decreases PackMeasure(parts, reply)
  {
    if parts != [] && |reply| + |footer| < maxLength {
      var part := parts[0];
      if |part| + |reply| + |footer| <= maxLength {
        PackNothing(parts[1..], reply + "\n\n" + part, footer, maxLength);
      } else if |part| + |footer| > maxLength {
        PackNothing(parts[1..], reply, footer, maxLength);
        assert forall i :: 1 <= i < |parts| ==> parts[i] == parts[1..][i - 1];
      }
    }
  }

  /** The blocks that can ever be posted, each behind "\n\n", in order. */
  function Fitting(parts: seq<string>, footer: string, maxLength: int): string {
    if parts == [] then ""
    else (if |parts[0]| + |footer| <= maxLength then "\n\n" + parts[0] else "")
         + Fitting(parts[1..], footer, maxLength)
  }

  /** The posts with the footer taken off each, one after the other. */
  function Bodies(posts: seq<string>, footer: string): string
    requires forall i :: 0 <= i < |posts| ==> |footer| <= |posts[i]|
  {
    if posts == [] then ""
    else posts[0][..|posts[0]| - |footer|] + Bodies(posts[1..], footer)
  }

  lemma {:induction false} FittingAppend(a: seq<string>, b: seq<string>, footer: string, maxLength: int)
    ensures Fitting(a + b, footer, maxLength) == Fitting(a, footer, maxLength) + Fitting(b, footer, maxLength)
  {
    if a == [] {
      assert a + b == b;
    } else {
      assert (a + b)[0] == a[0] && (a + b)[1..] == a[1..] + b;
      FittingAppend(a[1..], b, footer, maxLength);
    }
  }

  /** The posts without their footers, followed by the blocks still queued
      that could ever fit, are the reply in progress followed by every block
      given that could ever fit. */
  predicate KeepsOrder(o: Outcome, parts: seq<string>, reply: string, footer: string, maxLength: int) {
    (forall i :: 0 <= i < |o.posts| ==> |footer| <= |o.posts[i]|)
    && Bodies(o.posts, footer) + Fitting(o.left, footer, maxLength) == reply + Fitting(parts, footer, maxLength)
  }

  /** Nothing is lost, reordered or repeated: the posts without their footers,
      followed by the blocks still queued that could ever fit, spell out the
      reply in progress and then every block that could ever fit, each behind
      "\n\n", in order. That no block is split between posts is PackRuns. */
  lemma {:induction false} PackOrder(parts: seq<string>, reply: string, footer: string, maxLength: int)
    ensures KeepsOrder(Pack(parts, reply, footer, maxLength), parts, reply, footer, maxLength)
    decreases PackMeasure(parts, reply), 1
  {
    var o := Pack(parts, reply, footer, maxLength);
    if parts != [] && |reply| + |footer| < maxLength {
      var part := parts[0];
      if |part| + |reply| + |footer| <= maxLength {
        PackOrderTaken(parts, reply, footer, maxLength);
      } else if |part| + |footer| > maxLength {
        PackOrderDropped(parts, reply, footer, maxLength);
      } else {
        PackOrderRequeued(parts, reply, footer, maxLength);
      }
    } else if reply != "" {
      var p := reply + footer;
      assert o.posts == [p];
      assert p[..|p| - |footer|] == reply;
    }
  }

  /** PackOrder when the next block fits and is appended to the reply. */
  lemma {:induction false} PackOrderTaken(parts: seq<string>, reply: string, footer: string, maxLength: int)
    requires parts != [] && |parts[0]| + |reply| + |footer| <= maxLength && |reply| + |footer| < maxLength
    ensures KeepsOrder(Pack(parts, reply, footer, maxLength), parts, reply, footer, maxLength)
    decreases PackMeasure(parts, reply), 0
  {
    var part := parts[0];
    var next := reply + "\n\n" + part;
    var o := Pack(parts[1..], next, footer, maxLength);
    assert Pack(parts, reply, footer, maxLength) == o;
    PackOrder(parts[1..], next, footer, maxLength);
    FittingCons(part, parts[1..], footer, maxLength);
    assert [part] + parts[1..] == parts;
    var fitting := Fitting(parts[1..], footer, maxLength);
    assert next + fitting == reply + ("\n\n" + part + fitting);
    OrderStep(o, parts, next, reply, footer, maxLength);
  }

  /** The step of PackOrder for a consumed block, apart from the packing. */
  lemma OrderStep(o: Outcome, parts: seq<string>, next: string, reply: string, footer: string, maxLength: int)
    requires parts != [] && KeepsOrder(o, parts[1..], next, footer, maxLength)
    requires next + Fitting(parts[1..], footer, maxLength) == reply + Fitting(parts, footer, maxLength)
    ensures KeepsOrder(o, parts, reply, footer, maxLength)
  {
  }

  /** PackOrder when the next block can never fit and is dropped. */
  lemma {:induction false} PackOrderDropped(parts: seq<string>, reply: string, footer: string, maxLength: int)
    requires parts != [] && |parts[0]| + |footer| > maxLength && |reply| + |footer| < maxLength
    ensures KeepsOrder(Pack(parts, reply, footer, maxLength), parts, reply, footer, maxLength)
    decreases PackMeasure(parts, reply), 0
  {
    assert Pack(parts, reply, footer, maxLength) == Pack(parts[1..], reply, footer, maxLength);
    PackOrder(parts[1..], reply, footer, maxLength);
    assert Fitting(parts, footer, maxLength) == "" + Fitting(parts[1..], footer, maxLength);
  }

  /** PackOrder when the next block is put back and the reply is posted. */
  lemma {:induction false} PackOrderRequeued(parts: seq<string>, reply: string, footer: string, maxLength: int)
    requires parts != [] && |reply| + |footer| < maxLength
    requires |parts[0]| + |footer| <= maxLength < |parts[0]| + |reply| + |footer|
    ensures KeepsOrder(Pack(parts, reply, footer, maxLength), parts, reply, footer, maxLength)
    decreases PackMeasure(parts, reply), 0
  {
    var o := Pack(parts, reply, footer, maxLength);
    var after := Pack(parts, "", footer, maxLength);
    var p := reply + footer;
    assert o == Outcome([p] + after.posts, after.left);
    PackOrder(parts, "", footer, maxLength);
    assert p[..|p| - |footer|] == reply;
    assert ([p] + after.posts)[1..] == after.posts;
    var bodies := Bodies(after.posts, footer);
    var queued := Fitting(after.left, footer, maxLength);
    assert bodies + queued == "" + Fitting(parts, footer, maxLength);
    assert Bodies(o.posts, footer) == reply + bodies;
    assert (reply + bodies) + queued == reply + (bodies + queued);
  }

  /** Hence the posts without their footers are exactly the reply in progress
      and the blocks taken from the deque that could ever fit, in order. */
  lemma PackTaken(parts: seq<string>, reply: string, footer: string, maxLength: int)
    ensures var o := Pack(parts, reply, footer, maxLength);
      (forall i :: 0 <= i < |o.posts| ==> |footer| <= |o.posts[i]|)
      && |o.left| <= |parts|
      && Bodies(o.posts, footer) == reply + Fitting(parts[..|parts| - |o.left|], footer, maxLength)
  {
    var o := Pack(parts, reply, footer, maxLength);
    PackOrder(parts, reply, footer, maxLength);
    PackLeaves(parts, reply, footer, maxLength);
    var used := parts[..|parts| - |o.left|];
    assert parts == used + o.left;
    FittingAppend(used, o.left, footer, maxLength);
    CancelRight(Bodies(o.posts, footer), reply + Fitting(used, footer, maxLength), Fitting(o.left, footer, maxLength));
  }

  /** The blocks taken from the deque while each post was being built, in
      order, one run per post; a block dropped as too long belongs to the run
      of the post being built at the time. */
  function Runs(parts: seq<string>, reply: string, footer: string, maxLength: int): seq<seq<string>>
    decreases PackMeasure(parts, reply)
  {
    if parts != [] && |reply| + |footer| < maxLength then
      var part := parts[0];
      if |part| + |footer| <= maxLength && |part| + |reply| + |footer| > maxLength then
        [[]] + Runs(parts, "", footer, maxLength)
      else
        var next := if |part| + |reply| + |footer| <= maxLength then reply + "\n\n" + part else reply;
        var r := Runs(parts[1..], next, footer, maxLength);
        if r == [] then [] else [[part] + r[0]] + r[1..]
    else if reply != "" then [[]] else []
  }

  /** The runs one after the other. */
  function Concat<T>(runs: seq<seq<T>>): seq<T> {
    if runs == [] then [] else runs[0] + Concat(runs[1..])
  }

  /** Each post without its footer is the reply in progress, for the first
      post only, followed by that post's run of blocks, each that can ever fit
      behind "\n\n". */
  predicate PostsFromRuns(posts: seq<string>, runs: seq<seq<string>>, reply: string, footer: string, maxLength: int) {
    |runs| == |posts|
    && forall j :: 0 <= j < |runs| ==>
         |footer| <= |posts[j]|
         && posts[j][..|posts[j]| - |footer|] == (if j == 0 then reply else "") + Fitting(runs[j], footer, maxLength)
  }

  /** No block is split between posts: each post is built from its own run of
      whole blocks, and when anything is posted, the runs followed by the
      blocks still queued are exactly the blocks given. */
  lemma {:induction false} PackRuns(parts: seq<string>, reply: string, footer: string, maxLength: int)
    ensures var o := Pack(parts, reply, footer, maxLength);
      var runs := Runs(parts, reply, footer, maxLength);
      PostsFromRuns(o.posts, runs, reply, footer, maxLength)
      && (o.posts != [] ==> Concat(runs) + o.left == parts)
    decreases PackMeasure(parts, reply), 1
  {
    var o := Pack(parts, reply, footer, maxLength);
    var runs := Runs(parts, reply, footer, maxLength);
    if parts != [] && |reply| + |footer| < maxLength {
      var part := parts[0];
      if |part| + |footer| <= maxLength && |part| + |reply| + |footer| > maxLength {
        PackRunsRequeued(parts, reply, footer, maxLength);
      } else if |part| + |reply| + |footer| <= maxLength {
        PackRunsTaken(parts, reply, footer, maxLength);
      } else {
        PackRunsDropped(parts, reply, footer, maxLength);
      }
    } else if reply != "" {
      var p := reply + footer;
      assert o.posts == [p] && runs == [[]];
      assert p[..|p| - |footer|] == reply;
      assert Concat(runs) == [];
    }
  }

  /** PackRuns when the next block is put back and the reply is posted. */
  lemma {:induction false} PackRunsRequeued(parts: seq<string>, reply: string, footer: string, maxLength: int)
    requires parts != [] && |reply| + |footer| < maxLength
    requires |parts[0]| + |footer| <= maxLength < |parts[0]| + |reply| + |footer|
    ensures var o := Pack(parts, reply, footer, maxLength);
      var runs := Runs(parts, reply, footer, maxLength);
      PostsFromRuns(o.posts, runs, reply, footer, maxLength)
      && (o.posts != [] ==> Concat(runs) + o.left == parts)
    decreases PackMeasure(parts, reply), 0
  {
    var after := Pack(parts, "", footer, maxLength);
    var ra := Runs(parts, "", footer, maxLength);
    var p := reply + footer;
    assert Pack(parts, reply, footer, maxLength) == Outcome([p] + after.posts, after.left);
    assert Runs(parts, reply, footer, maxLength) == [[]] + ra;
    PackRuns(parts, "", footer, maxLength);
    PackNothing(parts, "", footer, maxLength);
    assert after.posts != [];
    assert Concat([[]] + ra) == [] + Concat(ra);
    assert p[..|p| - |footer|] == reply;
    RunsPrepend(p, after.posts, ra, reply, footer, maxLength);
  }

  /** PackRuns when the next block fits and is appended to the reply. */
  lemma {:induction false} PackRunsTaken(parts: seq<string>, reply: string, footer: string, maxLength: int)
    requires parts != [] && |parts[0]| + |reply| + |footer| <= maxLength && |reply| + |footer| < maxLength
    ensures var o := Pack(parts, reply, footer, maxLength);
      var runs := Runs(parts, reply, footer, maxLength);
      PostsFromRuns(o.posts, runs, reply, footer, maxLength)
      && (o.posts != [] ==> Concat(runs) + o.left == parts)
    decreases PackMeasure(parts, reply), 0
  {
    var part := parts[0];
    var next := reply + "\n\n" + part;
    var o := Pack(parts[1..], next, footer, maxLength);
    var r := Runs(parts[1..], next, footer, maxLength);
    assert Pack(parts, reply, footer, maxLength) == o;
    assert Runs(parts, reply, footer, maxLength) == if r == [] then [] else [[part] + r[0]] + r[1..];
    PackRuns(parts[1..], next, footer, maxLength);
    if r != [] {
      FittingCons(part, r[0], footer, maxLength);
      assert next + Fitting(r[0], footer, maxLength) == reply + ("\n\n" + part + Fitting(r[0], footer, maxLength));
    }
    RunsConsumed(o, r, parts, next, reply, footer, maxLength);
  }

  /** PackRuns when the next block can never fit and is dropped. */
  lemma {:induction false} PackRunsDropped(parts: seq<string>, reply: string, footer: string, maxLength: int)
    requires parts != [] && |parts[0]| + |footer| > maxLength && |reply| + |footer| < maxLength
    ensures var o := Pack(parts, reply, footer, maxLength);
      var runs := Runs(parts, reply, footer, maxLength);
      PostsFromRuns(o.posts, runs, reply, footer, maxLength)
      && (o.posts != [] ==> Concat(runs) + o.left == parts)
    decreases PackMeasure(parts, reply), 0
  {
    var part := parts[0];
    var o := Pack(parts[1..], reply, footer, maxLength);
    var r := Runs(parts[1..], reply, footer, maxLength);
    assert Pack(parts, reply, footer, maxLength) == o;
    assert Runs(parts, reply, footer, maxLength) == if r == [] then [] else [[part] + r[0]] + r[1..];
    PackRuns(parts[1..], reply, footer, maxLength);
    if r != [] {
      FittingCons(part, r[0], footer, maxLength);
    }
    RunsConsumed(o, r, parts, reply, reply, footer, maxLength);
  }

  /** The step of PackRuns for a consumed block, apart from the packing: the
      block joins the first run, if there is one. */
  lemma RunsConsumed(o: Outcome, r: seq<seq<string>>, parts: seq<string>, next: string, reply: string, footer: string, maxLength: int)
    requires parts != []
    requires PostsFromRuns(o.posts, r, next, footer, maxLength)
    requires o.posts != [] ==> Concat(r) + o.left == parts[1..]
    requires r != [] ==> next + Fitting(r[0], footer, maxLength) == reply + Fitting([parts[0]] + r[0], footer, maxLength)
    ensures var runs := if r == [] then [] else [[parts[0]] + r[0]] + r[1..];
      PostsFromRuns(o.posts, runs, reply, footer, maxLength)
      && (o.posts != [] ==> Concat(runs) + o.left == parts)
  {
    if r != [] {
      RunsExtend(o.posts, r, parts[0], next, reply, footer, maxLength);
      ConcatExtend(r, parts[0], o.left, parts[1..]);
      assert parts == [parts[0]] + parts[1..];
    }
  }

  /** A post made before the others, from the reply alone, with an empty run. */
  lemma RunsPrepend(p: string, posts: seq<string>, runs: seq<seq<string>>, reply: string, footer: string, maxLength: int)
    requires PostsFromRuns(posts, runs, "", footer, maxLength)
    requires |footer| <= |p| && p[..|p| - |footer|] == reply
    ensures PostsFromRuns([p] + posts, [[]] + runs, reply, footer, maxLength)
  {
    var ps := [p] + posts;
    var rs := [[]] + runs;
    forall j | 0 <= j < |rs|
      ensures |footer| <= |ps[j]|
        && ps[j][..|ps[j]| - |footer|] == (if j == 0 then reply else "") + Fitting(rs[j], footer, maxLength)
    {
      if j > 0 {
        assert ps[j] == posts[j - 1] && rs[j] == runs[j - 1];
      }
    }
  }

  /** The block taken first joins the run of the first post. */
  lemma RunsExtend(posts: seq<string>, runs: seq<seq<string>>, part: string, next: string, reply: string, footer: string, maxLength: int)
    requires PostsFromRuns(posts, runs, next, footer, maxLength) && runs != []
    requires next + Fitting(runs[0], footer, maxLength) == reply + Fitting([part] + runs[0], footer, maxLength)
    ensures PostsFromRuns(posts, [[part] + runs[0]] + runs[1..], reply, footer, maxLength)
  {
    var rs := [[part] + runs[0]] + runs[1..];
    assert forall j :: 1 <= j < |rs| ==> rs[j] == runs[j];
  }

  /** Fitting of a run with one more block in front. */
  lemma FittingCons(part: string, run: seq<string>, footer: string, maxLength: int)
    ensures Fitting([part] + run, footer, maxLength)
            == (if |part| + |footer| <= maxLength then "\n\n" + part else "") + Fitting(run, footer, maxLength)
  {
    assert ([part] + run)[0] == part && ([part] + run)[1..] == run;
  }

  /** Concat of runs whose first run has one more block in front. */
  lemma ConcatExtend<T>(runs: seq<seq<T>>, part: T, left: seq<T>, rest: seq<T>)
    requires runs != [] && Concat(runs) + left == rest
    ensures Concat([[part] + runs[0]] + runs[1..]) + left == [part] + rest
  {
    var head := [part] + runs[0];
    var tail := runs[1..];
    var rs := [head] + tail;
    assert rs[0] == head && rs[1..] == tail;
    var c := Concat(tail);
    assert Concat(rs) == head + c;
    assert Concat(runs) == runs[0] + c;
    assert head + c + left == [part] + (runs[0] + c + left);
  }


  /** The bound is reached: a lone block exactly as long as the limit allows
      with the footer becomes one post two characters over the limit. */
  lemma LongestPost(x: string, footer: string, maxLength: int)
    requires |x| + |footer| == maxLength && |footer| < maxLength
    ensures Pack([x], "", footer, maxLength) == Outcome(["\n\n" + x + footer], [])
    ensures |"\n\n" + x + footer| == maxLength + 2
  {
    assert [x][1..] == [] && "" + "\n\n" + x == "\n\n" + x;
    assert Pack([x], "", footer, maxLength) == Pack([], "\n\n" + x, footer, maxLength);
  }

  /** Blocks can be stranded: once the reply and footer reach the limit the
      loop stops, so after a block two characters shorter than the room left by
      the footer, the next block is never posted. */
  lemma Stranded(x: string, y: string, footer: string, maxLength: int)
    requires |x| + |footer| + 2 == maxLength
    ensures Pack([x, y], "", footer, maxLength) == Outcome(["\n\n" + x + footer], [y])
  {
    assert [x, y][1..] == [y] && "" + "\n\n" + x == "\n\n" + x;
    assert Pack([x, y], "", footer, maxLength) == Pack([y], "\n\n" + x, footer, maxLength);
  }
}
