/** The message text built for each new item in the delivery loop of `main`:
    label prefix, emphasised title line and truncated abstract. */
module Format {
  import opened Text
  import opened Entries

  const Ellipsis: char := '\U{2026}'

  /** The title line: a Slack link `<link|title>` when both are present,
      otherwise whichever is present, wrapped in `*` when not empty. */
  function TitleLine(title: string, link: string): (r: string)
    ensures title != "" && link != "" ==> r == "*<" + link + "|" + title + ">*"
    ensures title != "" && link == "" ==> r == "*" + title + "*"
    ensures title == "" && link != "" ==> r == "*" + link + "*"
    ensures r == "" <==> title == "" && link == ""
  {
    var line := if link != "" && title != "" then "<" + link + "|" + title + ">"
                else if title != "" then title else link;
    if line != "" then "*" + line + "*" else line
  }

  /** How Slack reads an emphasised link line `*<url|label>*`: the url runs
      to the first `|`, the label to the first `>`, which must close the line. */
  function ParseLinkLine(s: string): (r: Option<(string, string)>)
    ensures r.Some? ==> '|' !in r.value.0 && '>' !in r.value.0 && '>' !in r.value.1
  {
    if |s| < 2 || s[0] != '*' || s[1] != '<' then None
    else
      var body := s[2..];
      var close := IndexOf(body, '>');
      if close == |body| || body[close + 1..] != "*" then None
      else
        var inner := body[..close];
        var bar := IndexOf(inner, '|');
        if bar == |inner| then None
        else
          assert inner == inner[..bar] + [inner[bar]] + inner[bar + 1..];
          Some((inner[..bar], inner[bar + 1..]))
  }

  /** Whatever Slack reads from a line is what the line spells out: the line
      is `*<url|label>*` for the url and label read. */
  lemma ParseLinkLineSound(s: string)
    ensures var r := ParseLinkLine(s);
            r.Some? ==> s == "*<" + r.value.0 + "|" + r.value.1 + ">*"
  {
    var r := ParseLinkLine(s);
    if r.Some? {
      var body := s[2..];
      var close := IndexOf(body, '>');
      var inner := body[..close];
      var bar := IndexOf(inner, '|');
      var url, text := r.value.0, r.value.1;
      assert url == inner[..bar] && text == inner[bar + 1..];
      assert inner == url + "|" + text;
      assert body == inner + ">*";
      assert s == "*<" + body;
      assert "*<" + (url + "|" + text) + ">*" == "*<" + url + "|" + text + ">*";
    }
  }

  /** A link line with an escaped title and a link free of `|` and `>` reads
      back as the same link and title. */
  lemma {:induction false} LinkLineRoundTrip(title: string, link: string)
    requires title != "" && link != ""
    requires '|' !in link && '>' !in link && '>' !in title
    ensures ParseLinkLine(TitleLine(title, link)) == Some((link, title))
  {
    var s := TitleLine(title, link);
    var body := s[2..];
    assert body == (link + "|" + title) + [ '>' ] + "*";
    assert '>' !in link + "|" + title;
    IndexOfAfter(link + "|" + title, '>', "*");
    var close := |link + "|" + title|;
    assert body[close + 1..] == "*";
    var inner := body[..close];
    assert inner == link + [ '|' ] + title;
    IndexOfAfter(link, '|', title);
    assert inner[..|link|] == link && inner[|link| + 1..] == title;
  }

  /** `abstract_text`: the stripped abstract, cut to `limit` characters,
      right-stripped and followed by an ellipsis when a positive limit is
      exceeded. */
  function TruncateAbstract(abstractText: string, limit: int): (r: string)
    ensures NoOuterSpace(r)
    ensures limit > 0 ==> |r| <= limit + 1
    ensures !(limit > 0 && |Strip(abstractText)| > limit) ==> r == Strip(abstractText)
  {
    var t := Strip(abstractText);
    if limit > 0 && |t| > limit then
      var kept := RStrip(t[..limit]);
      var r := kept + [Ellipsis];
      assert r[0] == if kept != [] then t[0] else Ellipsis;
      assert r[|r| - 1] == Ellipsis;
      r
    else t
  }

  /** An abstract longer than a positive limit keeps a prefix of at most
      `limit` characters, drops only whitespace from its end, and ends with
      an ellipsis. */
  lemma TruncateAbstractCut(abstractText: string, limit: int)
    requires limit > 0 && |Strip(abstractText)| > limit
    ensures var r := TruncateAbstract(abstractText, limit);
            var t := Strip(abstractText);
            && |r| >= 1 && r[|r| - 1] == Ellipsis
            && r[..|r| - 1] == t[..|r| - 1]
            && AllSpace(t[|r| - 1..limit])
            && (|r| > 1 ==> !IsSpace(r[|r| - 2]))
  {
    var t := Strip(abstractText);
    var kept := RStrip(t[..limit]);
    var r := kept + [Ellipsis];
    assert TruncateAbstract(abstractText, limit) == r;
    assert r[..|r| - 1] == kept;
    assert t[|kept|..limit] == t[..limit][|kept|..];
  }

  /** Lines 104-107: label line, title line and abstract line joined by
      newlines, the abstract line only when not empty, the whole stripped. */
  function AssembleMessage(channelLabel: string, titleLine: string, abstractLine: string): (r: string)
    ensures NoOuterSpace(r)
  {
    var prefix := if channelLabel != "" then channelLabel + "\n" else "";
    if abstractLine != "" then Strip(prefix + titleLine + "\n" + abstractLine)
    else Strip(prefix + titleLine)
  }

  /** The message for one item (lines 97-107). */
  function FormatMessage(channelLabel: string, limit: int, it: Item): (r: string)
    ensures NoOuterSpace(r)
  {
    AssembleMessage(channelLabel, TitleLine(it.title, it.link), TruncateAbstract(it.abstractText, limit))
  }

  lemma StripTrailingNewline(s: string)
    requires s != [] && NoOuterSpace(s)
    ensures Strip(s + "\n") == s
  {
    var m := s + "\n";
    assert LeadingSpaces(m) == 0;
    assert m[..|m| - 1] == s;
    assert TrailingSpaces(s) == 0;
    assert TrailingSpaces(m) == 1;
  }

  lemma StripLeadingNewline(s: string)
    requires s != [] && NoOuterSpace(s)
    ensures Strip("\n" + s) == s
  {
    var m := "\n" + s;
    assert m[1..] == s;
    assert LeadingSpaces(s) == 0;
    assert LeadingSpaces(m) == 1;
    StripNoOuter(s);
  }

  /** The lines of an assembled message, when no part has outer whitespace
      (as the configured label, the title line and the abstract line have not):
      the final strip removes only the newline left next to a missing part at
      either end, and an empty title line between a label and an abstract is
      kept as an empty line. */
  lemma {:induction false} AssembleLayout(channelLabel: string, titleLine: string, abstractLine: string)
    requires NoOuterSpace(channelLabel) && NoOuterSpace(titleLine) && NoOuterSpace(abstractLine)
    ensures AssembleMessage(channelLabel, titleLine, abstractLine) ==
              if abstractLine == "" then
                if channelLabel == "" then titleLine
                else if titleLine == "" then channelLabel
                else channelLabel + "\n" + titleLine
              else if channelLabel == "" && titleLine == "" then abstractLine
              else if channelLabel == "" then titleLine + "\n" + abstractLine
              else channelLabel + "\n" + titleLine + "\n" + abstractLine
  {
    if abstractLine == "" {
      if channelLabel == "" {
        AssembleTitleOnly(titleLine);
      } else if titleLine == "" {
        AssembleLabelOnly(channelLabel);
      } else {
        AssembleWithoutAbstract(channelLabel, titleLine);
      }
    } else if channelLabel == "" && titleLine == "" {
      AssembleAbstractOnly(abstractLine);
    } else {
      AssembleWithAbstract(channelLabel, titleLine, abstractLine);
    }
  }

  lemma AssembleTitleOnly(titleLine: string)
    requires NoOuterSpace(titleLine)
    ensures AssembleMessage("", titleLine, "") == titleLine
  {
    StripNoOuter(titleLine);
    assert "" + titleLine == titleLine;
  }

  lemma AssembleLabelOnly(channelLabel: string)
    requires NoOuterSpace(channelLabel) && channelLabel != ""
    ensures AssembleMessage(channelLabel, "", "") == channelLabel
  {
    StripTrailingNewline(channelLabel);
    assert channelLabel + "\n" + "" == channelLabel + "\n";
  }

  lemma AssembleAbstractOnly(abstractLine: string)
    requires NoOuterSpace(abstractLine) && abstractLine != ""
    ensures AssembleMessage("", "", abstractLine) == abstractLine
  {
    StripLeadingNewline(abstractLine);
    assert "" + "" + "\n" + abstractLine == "\n" + abstractLine;
  }

  lemma AssembleWithoutAbstract(channelLabel: string, titleLine: string)
    requires NoOuterSpace(channelLabel) && NoOuterSpace(titleLine)
    requires channelLabel != "" && titleLine != ""
    ensures AssembleMessage(channelLabel, titleLine, "") == channelLabel + "\n" + titleLine
  {
    var m := channelLabel + "\n" + titleLine;
    assert m[0] == channelLabel[0] && m[|m| - 1] == titleLine[|titleLine| - 1];
    StripNoOuter(m);
  }

  lemma AssembleWithAbstract(channelLabel: string, titleLine: string, abstractLine: string)
    requires NoOuterSpace(channelLabel) && NoOuterSpace(titleLine) && NoOuterSpace(abstractLine)
    requires abstractLine != "" && (channelLabel != "" || titleLine != "")
    ensures AssembleMessage(channelLabel, titleLine, abstractLine) ==
              if channelLabel == "" then titleLine + "\n" + abstractLine
              else channelLabel + "\n" + titleLine + "\n" + abstractLine
  {
    if channelLabel == "" {
      var m := titleLine + "\n" + abstractLine;
      assert "" + titleLine + "\n" + abstractLine == m;
      assert m[0] == titleLine[0] && m[|m| - 1] == abstractLine[|abstractLine| - 1];
      StripNoOuter(m);
    } else {
      var m := channelLabel + "\n" + titleLine + "\n" + abstractLine;
      assert m[0] == channelLabel[0] && m[|m| - 1] == abstractLine[|abstractLine| - 1];
      StripNoOuter(m);
    }
  }

  /** The message of an item, line by line. */
  lemma MessageLayout(channelLabel: string, limit: int, it: Item)
    requires NoOuterSpace(channelLabel)
    ensures var titleLine := TitleLine(it.title, it.link);
            var abstractLine := TruncateAbstract(it.abstractText, limit);
            FormatMessage(channelLabel, limit, it) ==
              if abstractLine == "" then
                if channelLabel == "" then titleLine
                else if titleLine == "" then channelLabel
                else channelLabel + "\n" + titleLine
              else if channelLabel == "" && titleLine == "" then abstractLine
              else if channelLabel == "" then titleLine + "\n" + abstractLine
              else channelLabel + "\n" + titleLine + "\n" + abstractLine
  {
    var titleLine := TitleLine(it.title, it.link);
    assert NoOuterSpace(titleLine);
    AssembleLayout(channelLabel, titleLine, TruncateAbstract(it.abstractText, limit));
  }

  /** A message is empty exactly when there is no label, no title, no link
      and no abstract. */
  lemma EmptyMessage(channelLabel: string, limit: int, it: Item)
    requires NoOuterSpace(channelLabel)
    ensures FormatMessage(channelLabel, limit, it) == "" <==>
              channelLabel == "" && it.title == "" && it.link == "" && TruncateAbstract(it.abstractText, limit) == ""
  {
    MessageLayout(channelLabel, limit, it);
  }
}
