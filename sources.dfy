/**
 * `format_sources` of the chat page: each citation is cleaned of surrounding whitespace and
 * leading bullet characters, its last " - " segment becomes a link, and the items are
 * wrapped in an HTML list. An empty list gives a fixed placeholder.
 */
module SourceList {
  import opened Wrappers
  import opened Text

  const NoSources := "No sources available."
  const Separator := " - "
  /** The characters `lstrip("*- ")` removes. */
  const Bullets: set<char> := {'*', '-', ' '}

  /** `source.strip().lstrip("*- ")`. */
  function Clean(source: string): (c: string)
    ensures |c| <= |source|
    ensures c == [] || c[0] !in Bullets
    ensures c == [] || c[|c| - 1] !in Whitespace
  {
    LStrip(Strip(source), Bullets)
  }

  /**
   * Cleaning keeps the stripped source except for its longest prefix of bullet characters:
   * the result is a suffix of it and everything removed is `*`, `-` or a space.
   */
  lemma CleanRemovesLeadingBullets(source: string)
    ensures var t, c := Strip(source), Clean(source);
      |c| <= |t| && c == t[|t| - |c|..] && forall k :: 0 <= k < |t| - |c| ==> t[k] in Bullets
  {
    var t := Strip(source);
    assert Clean(source) == LStrip(t, Bullets);
  }

  /**
   * `" - ".join(parts[:-1])`: everything before the last part of the split. With a " - " in
   * the source, the link text, the separator and the URL give the source back; without one,
   * the link text is empty.
   */
  function LinkText(c: string): (text: string)
    ensures Contains(c, Separator) ==> text + Separator + Url(c) == c
    ensures !Contains(c, Separator) ==> text == []
  {
    var parts := Split(c, Separator);
    JoinAllButLast(parts, Separator, c);
    assert Url(c) == parts[|parts| - 1];
    assert Contains(c, Separator) <==> |parts| >= 2;
    Join(parts[..|parts| - 1], Separator)
  }

  /** Parts that join to `c`: all but the last, the separator and the last give `c` again. */
  lemma JoinAllButLast(parts: seq<string>, sep: string, c: string)
    requires |parts| >= 1 && Join(parts, sep) == c
    ensures |parts| >= 2 ==> Join(parts[..|parts| - 1], sep) + sep + parts[|parts| - 1] == c
    ensures |parts| == 1 ==> Join(parts[..|parts| - 1], sep) == []
  {
    if |parts| >= 2 {
      JoinLast(parts, sep);
    } else {
      assert parts[..0] == [];
    }
  }

  /** `parts[-1]`: the last part of the split, taken as the URL. */
  function Url(c: string): (url: string)
    ensures !Contains(url, Separator)
  {
    var parts := Split(c, Separator);
    parts[|parts| - 1]
  }

  /** The link markup: the text in front, then the URL as both the target and the label. */
  function Anchor(text: string, url: string): (a: string)
    ensures |a| == |text| + 2 * |url| + 34
    ensures a[..|text|] == text && a[|a| - |url| - 4..] == url + "</a>"
  {
    text + " - <a href=\"" + url + "\" target=\"_blank\">" + url + "</a>"
  }

  /** The formatted source before its `<li>` wrapper: verbatim without a " - ", longer with one. */
  function ItemBody(c: string): (body: string)
    ensures !Contains(c, Separator) ==> body == c
    ensures Contains(c, Separator) ==> |body| > |c|
  {
    if |Split(c, Separator)| > 1 then Anchor(LinkText(c), Url(c)) else c
  }

  /** One list item: the formatted source inside `<li>` and `</li>`. */
  function Item(source: string): (item: string)
    ensures |item| >= 9 && item[..4] == "<li>" && item[|item| - 5..] == "</li>"
  {
    var body := ItemBody(Clean(source));
    ListItemShape(body);
    "<li>" + body + "</li>"
  }

  /** `<li>` + `body` + `</li>` starts and ends with the tags and holds `body` between them. */
  lemma ListItemShape(body: string)
    ensures var item := "<li>" + body + "</li>";
      |item| == |body| + 9 && item[..4] == "<li>" && item[|item| - 5..] == "</li>" &&
      item[4..|item| - 5] == body
  {
    var item := "<li>" + body + "</li>";
    assert item[4..|item| - 5] == body;
  }

  /** An item is the formatted source between `<li>` and `</li>`. */
  lemma ItemWrapsBody(source: string)
    ensures var item := Item(source);
      |item| >= 9 && item[..4] == "<li>" && item[|item| - 5..] == "</li>" &&
      item[4..|item| - 5] == ItemBody(Clean(source))
  {
    ListItemShape(ItemBody(Clean(source)));
  }

  /** One list item per source, in order. */
  function Items(sources: seq<string>): (items: seq<string>)
    ensures |items| == |sources|
    ensures forall k :: 0 <= k < |sources| ==> items[k] == Item(sources[k])
  {
    seq(|sources|, k requires 0 <= k < |sources| => Item(sources[k]))
  }

  /** What `format_sources(sources)` returns: the placeholder for no sources, otherwise an HTML list. */
  function FormattedSources(sources: seq<string>): (html: string)
    ensures sources == [] ==> html == NoSources
    ensures sources != [] ==> |html| >= 9 && html[..4] == "<ul>" && html[|html| - 5..] == "</ul>"
  {
    if sources == [] then NoSources else "<ul>" + Join(Items(sources), "") + "</ul>"
  }

  /** `format_sources`: builds the list item by item. */
  method FormatSources(sources: seq<string>) returns (html: string)
    ensures html == FormattedSources(sources)
  {
    if |sources| == 0 {
      return NoSources;
    }
    var formatted: seq<string> := [];
    for i := 0 to |sources|
      invariant MappedBy(Item, sources[..i], formatted)
    {
      PrefixAppend(sources, i);
      MappedAppend(Item, sources[..i], formatted, sources[i]);
      var item := FormatItem(sources[i]);
      formatted := formatted + [item];
    }
    assert sources[..|sources|] == sources;
    assert formatted == Items(sources);
    html := "<ul>" + Join(formatted, "") + "</ul>";
  }

  /** `ys` is `xs` with `f` applied to each element, in order. */
  ghost predicate MappedBy(f: string -> string, xs: seq<string>, ys: seq<string>) {
    |ys| == |xs| && forall k :: 0 <= k < |xs| ==> ys[k] == f(xs[k])
  }

  /** Mapping one more element appends its image. */
  lemma MappedAppend(f: string -> string, xs: seq<string>, ys: seq<string>, x: string)
    requires MappedBy(f, xs, ys)
    ensures MappedBy(f, xs + [x], ys + [f(x)])
  {
  }

  /** The body of the loop in `format_sources`: one cleaned, linked and wrapped source. */
  method FormatItem(raw: string) returns (item: string)
    ensures item == Item(raw)
  {
    var source := Clean(raw);
    var parts := Split(source, Separator);
    var formattedSource;
    if |parts| > 1 {
      var text := Join(parts[..|parts| - 1], Separator);
      var url := parts[|parts| - 1];
      formattedSource := text + " - <a href=\"" + url + "\" target=\"_blank\">" + url + "</a>";
    } else {
      formattedSource := source;
    }
    item := "<li>" + formattedSource + "</li>";
  }

  /** The placeholder appears exactly for an empty list; otherwise the output is an HTML list. */
  lemma PlaceholderOnlyForEmpty(sources: seq<string>)
    ensures FormattedSources(sources) == NoSources <==> sources == []
    ensures sources != [] ==>
              var html := FormattedSources(sources);
              html[..4] == "<ul>" && html[|html| - 5..] == "</ul>"
  {
    if sources != [] {
      var html := FormattedSources(sources);
      var middle := Join(Items(sources), "");
      assert html == "<ul>" + middle + "</ul>";
      assert html[0] == '<' && NoSources[0] == 'N';
      assert html[..4] == "<ul>";
      assert html[|html| - 5..] == "</ul>";
    }
  }

  /** A cleaned source is left as it is exactly when it holds no " - ". */
  lemma PlainItem(c: string)
    ensures ItemBody(c) == c <==> !Contains(c, Separator)
  {
    if Contains(c, Separator) {
      LinkedItem(c);
      assert |ItemBody(c)| > |c|;
    }
  }

  /** With a " - " in it, the source is link text, the separator and a URL free of " - ". */
  lemma LinkedItem(c: string)
    requires Contains(c, Separator)
    ensures LinkText(c) + Separator + Url(c) == c
    ensures !Contains(Url(c), Separator)
    ensures ItemBody(c) == Anchor(LinkText(c), Url(c))
  {
    JoinLast(Split(c, Separator), Separator);
  }

  /** The URL starts with "- " (so `" - "` also occurs two characters later). */
  predicate StartsWithDash(url: string) {
    |url| >= 2 && url[..2] == "- "
  }

  /**
   * The split takes its URL after the last occurrence of " - " unless that URL begins
   * with "- ": then the last occurrence is two characters further on, overlapping the one
   * the left-to-right split cut at.
   */
  lemma UrlAfterLastOccurrence(c: string)
    requires Contains(c, Separator)
    ensures RFind(c, Separator) == Some(|LinkText(c)| + if StartsWithDash(Url(c)) then 2 else 0)
  {
    LinkedItem(c);
    LastOccurrenceAfterCut(LinkText(c), Url(c));
  }

  /** The last " - " in text + " - " + url, when the url holds none of its own. */
  lemma LastOccurrenceAfterCut(text: string, url: string)
    requires !Contains(url, Separator)
    ensures RFind(text + Separator + url, Separator) == Some(|text| + if StartsWithDash(url) then 2 else 0)
  {
    var c, p := text + Separator + url, |text|;
    NoOccurrenceInsideUrl(text, url);
    var last := p + if StartsWithDash(url) then 2 else 0;
    assert c[p..p + 3] == Separator;
    OccurrenceOverlapping(text, url);
    assert OccursAt(c, Separator, last);
    assert forall j: nat :: last < j ==> !OccursAt(c, Separator, j);
  }

  /** After the cut, " - " can only start at the cut itself or two characters on. */
  lemma NoOccurrenceInsideUrl(text: string, url: string)
    requires !Contains(url, Separator)
    ensures forall j: nat :: |text| + 2 < j ==> !OccursAt(text + Separator + url, Separator, j)
  {
    var c, p := text + Separator + url, |text|;
    forall j: nat | p + 2 < j && j + 3 <= |c|
      ensures !OccursAt(c, Separator, j)
    {
      assert c[j..j + 3] == url[j - p - 3..j - p];
      assert !OccursAt(url, Separator, j - p - 3);
    }
  }

  /** " - " at one and two characters after the cut: never at one, at two exactly when the URL starts with "- ". */
  lemma OccurrenceOverlapping(text: string, url: string)
    ensures !OccursAt(text + Separator + url, Separator, |text| + 1)
    ensures OccursAt(text + Separator + url, Separator, |text| + 2) <==> StartsWithDash(url)
  {
    var c, p := text + Separator + url, |text|;
    assert c[p + 1] == '-';
    if |url| >= 2 {
      assert c[p + 2..p + 5] == [' '] + url[..2];
    }
  }
}

module SourceListExamples {
  import opened Wrappers
  import opened Text
  import opened SourceList

  /** A source with nothing to strip at either end is kept as it is. */
  lemma CleanKeeps(s: string)
    requires s != [] && s[0] !in Whitespace && s[0] !in Bullets && s[|s| - 1] !in Whitespace
    ensures Clean(s) == s
  {
    assert LStrip(s, Whitespace) == s;
    assert RStrip(s, Whitespace) == s;
    assert LStrip(s, Bullets) == s;
  }

  lemma WrapPair(open: string, a: string, b: string, close: string)
    ensures open + Join([a, b], "") + close == open + a + b + close
  {
    assert [a, b][1..] == [b];
    assert Join([a, b], "") == a + b;
  }

  lemma FormattedPair(x: string, y: string)
    ensures FormattedSources([x, y]) == "<ul>" + Item(x) + Item(y) + "</ul>"
  {
    assert Items([x, y]) == [Item(x), Item(y)] by {
      assert [x, y][1..] == [y];
      assert [y][1..] == [];
    }
    WrapPair("<ul>", Item(x), Item(y), "</ul>");
  }

  lemma SplitLinked()
    ensures Split("A - http://x", Separator) == ["A", "http://x"]
  {
    var s := "A - http://x";
    assert !OccursAt(s, Separator, 0) by {
      assert s[0..3][0] != Separator[0];
    }
    assert OccursAt(s, Separator, 1);
    assert FindFrom(s, Separator, 0) == Some(1);
    assert FindFrom(s, Separator, 4) == None;
    assert SplitFrom(s, Separator, 4) == [s[4..]];
    assert SplitFrom(s, Separator, 0) == [s[..1]] + SplitFrom(s, Separator, 4);
    assert s[..1] == "A" && s[4..] == "http://x";
    assert Split(s, Separator) == SplitFrom(s, Separator, 0);
  }

  lemma LinkedCitation()
    ensures Item("A - http://x") == "<li>" + Anchor("A", "http://x") + "</li>"
  {
    var s := "A - http://x";
    CleanKeeps(s);
    SplitLinked();
    var parts := Split(s, Separator);
    assert parts[..1] == ["A"] && Join(["A"], Separator) == "A";
    assert LinkText(s) == "A" && Url(s) == "http://x";
  }

  /** A string shorter than the separator cannot hold it. */
  lemma ShortIsPlain(c: string)
    requires |c| < |Separator|
    ensures ItemBody(c) == c
  {
    assert |Split(c, Separator)| == 1;
  }

  lemma PlainCitation()
    ensures Item("B") == "<li>" + "B" + "</li>"
  {
    CleanKeeps("B");
    ShortIsPlain("B");
  }

  /** Two citations, one with a URL and one without, rendered as a two-item list. */
  lemma LinkedAndPlainCitations()
    ensures FormattedSources(["A - http://x", "B"]) == "<ul>" + Item("A - http://x") + Item("B") + "</ul>"
    ensures Item("A - http://x") == "<li>" + Anchor("A", "http://x") + "</li>"
    ensures Item("B") == "<li>" + "B" + "</li>"
  {
    FormattedPair("A - http://x", "B");
    LinkedCitation();
    PlainCitation();
  }

  lemma SplitOverlapping()
    ensures Split("a - - b", Separator) == ["a", "- b"]
  {
    var s := "a - - b";
    assert !OccursAt(s, Separator, 0) by {
      assert s[0..3][0] != Separator[0];
    }
    assert OccursAt(s, Separator, 1);
    assert FindFrom(s, Separator, 0) == Some(1);
    assert !OccursAt(s, Separator, 4) by {
      assert s[4..7][0] != Separator[0];
    }
    assert FindFrom(s, Separator, 4) == None;
    assert SplitFrom(s, Separator, 4) == [s[4..]];
    assert SplitFrom(s, Separator, 0) == [s[..1]] + SplitFrom(s, Separator, 4);
    assert s[..1] == "a" && s[4..] == "- b";
    assert Split(s, Separator) == SplitFrom(s, Separator, 0);
  }

  /**
   * "a - - b": the split cuts at the first " - " and keeps "- b" as the URL, while the
   * last " - " starts two characters later and would leave "b".
   */
  lemma OverlappingSeparators()
    ensures Item("a - - b") == "<li>" + Anchor("a", "- b") + "</li>"
    ensures RFind("a - - b", Separator) == Some(3)
  {
    OverlappingItem();
    LastOccurrenceOverlapping();
  }

  lemma OverlappingItem()
    ensures Item("a - - b") == "<li>" + Anchor("a", "- b") + "</li>"
  {
    var s := "a - - b";
    CleanKeeps(s);
    SplitOverlapping();
    var parts := Split(s, Separator);
    assert parts[..1] == ["a"] && Join(["a"], Separator) == "a";
    assert LinkText(s) == "a" && Url(s) == "- b";
  }

  lemma LastOccurrenceOverlapping()
    ensures RFind("a - - b", Separator) == Some(3)
  {
    var s := "a - - b";
    assert !OccursAt(s, Separator, 4) by {
      assert s[4..7][0] != Separator[0];
    }
    assert OccursAt(s, Separator, 3);
    assert RFindUpTo(s, Separator, 4) == Some(3);
  }
}


