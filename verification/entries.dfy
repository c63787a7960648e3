/** Feed entries as the feed parser hands them over, and the items built from
    them: identifier selection (`entry_id`), abstract fallback
    (`extract_abstract`) and the loop of `main` that collects the items. */
module Entries {
  import opened Text
  import opened Sanitize

  datatype Option<T> = None | Some(value: T)

  /** One parsed feed entry. `None` stands for an attribute that is missing or
      holds `None`. */
  datatype RawEntry = RawEntry(
    id: Option<string>,
    guid: Option<string>,
    link: Option<string>,
    title: Option<string>,
    summary: Option<string>,
    description: Option<string>)

  /** An entry kept for delivery: the tuple `(eid, title, link, abstract)`. */
  datatype Item = Item(id: string, title: string, link: string, abstractText: string)

  /** Python truthiness of an optional string attribute. */
  predicate Truthy(o: Option<string>) {
    o.Some? && o.value != ""
  }

  /** `getattr(e, name, "") or ""` */
  function OrEmpty(o: Option<string>): (r: string)
    ensures Truthy(o) <==> r != ""
    ensures Truthy(o) ==> r == o.value
  {
    if o.Some? then o.value else ""
  }

  /** `entry_id`: the first truthy value among `id`, `guid` and `link`, stripped.
      The choice is made before stripping, so a whitespace-only `id` still wins. */
  function EntryId(e: RawEntry): (r: string)
    ensures NoOuterSpace(r)
    ensures Truthy(e.id) ==> r == Strip(e.id.value)
    ensures !Truthy(e.id) && Truthy(e.guid) ==> r == Strip(e.guid.value)
    ensures !Truthy(e.id) && !Truthy(e.guid) && Truthy(e.link) ==> r == Strip(e.link.value)
    ensures !Truthy(e.id) && !Truthy(e.guid) && !Truthy(e.link) ==> r == ""
  {
    var chosen :=
      if Truthy(e.id) then e.id.value
      else if Truthy(e.guid) then e.guid.value
      else if Truthy(e.link) then e.link.value
      else "";
    Strip(chosen)
  }

  /** `extract_abstract`: the stripped summary, or the stripped description
      when the summary strips to nothing. */
  function ExtractAbstract(e: RawEntry): (r: string)
    ensures NoOuterSpace(r)
    ensures Strip(OrEmpty(e.summary)) != "" ==> r == Strip(OrEmpty(e.summary))
    ensures Strip(OrEmpty(e.summary)) == "" ==> r == Strip(OrEmpty(e.description))
  {
    var summary := Strip(OrEmpty(e.summary));
    if summary != "" then summary else Strip(OrEmpty(e.description))
  }

  /** An entry has no abstract exactly when both its summary and its
      description are missing or whitespace only. */
  lemma ExtractAbstractEmpty(e: RawEntry)
    ensures ExtractAbstract(e) == "" <==> AllSpace(OrEmpty(e.summary)) && AllSpace(OrEmpty(e.description))
  {
    var summary, description := OrEmpty(e.summary), OrEmpty(e.description);
    StripEmpty(summary);
    StripEmpty(description);
    if Strip(summary) != "" {
      assert ExtractAbstract(e) == Strip(summary);
    } else {
      assert ExtractAbstract(e) == Strip(description);
    }
  }

  /** What every collected item satisfies. */
  predicate WellFormed(it: Item) {
    && it.id != "" && NoOuterSpace(it.id)
    && Clean(it.title) && '|' !in it.title && '<' !in it.title && '>' !in it.title
    && NoOuterSpace(it.link)
    && Clean(it.abstractText)
  }

  /** One iteration of the item-building loop: `None` is the `continue` taken
      for an entry without identifier; otherwise the title is sanitised and
      then escaped, and the abstract is the sanitised `extract_abstract`. */
  function Normalize(unescape: string -> string, e: RawEntry): (r: Option<Item>)
    ensures r.Some? <==> EntryId(e) != ""
    ensures r.Some? ==> r.value.id == EntryId(e)
    ensures r.Some? ==> r.value.link == Strip(OrEmpty(e.link))
    ensures r.Some? ==> r.value.title == SlackEscapeLabel(SanitizeText(unescape, Strip(OrEmpty(e.title))))
    ensures r.Some? ==> r.value.abstractText == SanitizeText(unescape, ExtractAbstract(e))
  {
    var eid := EntryId(e);
    if eid == "" then None
    else
      var title := SlackEscapeLabel(SanitizeText(unescape, Strip(OrEmpty(e.title))));
      var link := Strip(OrEmpty(e.link));
      var abstractText := SanitizeText(unescape, ExtractAbstract(e));
      Some(Item(eid, title, link, abstractText))
  }

  /** Every item built from an entry is well formed. */
  lemma NormalizeWellFormed(unescape: string -> string, e: RawEntry)
    ensures Normalize(unescape, e).Some? ==> WellFormed(Normalize(unescape, e).value)
  {
  }

  /** The items list that `main` builds, in feed order. */
  function NormalizeAll(unescape: string -> string, entries: seq<RawEntry>): (items: seq<Item>)
    ensures |items| <= |entries|
    decreases |entries|
  {
    if entries == [] then []
    else
      var init := NormalizeAll(unescape, entries[..|entries| - 1]);
      match Normalize(unescape, entries[|entries| - 1])
      case Some(it) => init + [it]
      case None => init
  }

  /** One more entry of the feed adds its item, if it has one, at the end. */
  lemma NormalizeAllStep(unescape: string -> string, entries: seq<RawEntry>, i: nat)
    requires i < |entries|
    ensures var next := Normalize(unescape, entries[i]);
            NormalizeAll(unescape, entries[..i + 1]) ==
              if next.Some? then NormalizeAll(unescape, entries[..i]) + [next.value]
              else NormalizeAll(unescape, entries[..i])
  {
    assert entries[..i + 1][..i] == entries[..i];
  }

  /** Every collected item is well formed, in particular its id is non-empty. */
  lemma {:induction false} NormalizeAllWellFormed(unescape: string -> string, entries: seq<RawEntry>)
    ensures forall it :: it in NormalizeAll(unescape, entries) ==> WellFormed(it)
    decreases |entries|
  {
    if entries != [] {
      NormalizeAllWellFormed(unescape, entries[..|entries| - 1]);
      NormalizeWellFormed(unescape, entries[|entries| - 1]);
    }
  }

  /** The entries that are kept are exactly those with a non-empty identifier,
      in the order of the feed. */
  lemma {:induction false} NormalizeAllIds(unescape: string -> string, entries: seq<RawEntry>)
    ensures Ids(NormalizeAll(unescape, entries)) == KeptIds(entries)
    decreases |entries|
  {
    if entries != [] {
      var init := entries[..|entries| - 1];
      var e := entries[|entries| - 1];
      NormalizeAllIds(unescape, init);
      if EntryId(e) != "" {
        var it := Normalize(unescape, e).value;
        assert NormalizeAll(unescape, entries) == NormalizeAll(unescape, init) + [it];
        assert (NormalizeAll(unescape, init) + [it])[..|NormalizeAll(unescape, init)|] == NormalizeAll(unescape, init);
      }
    }
  }

  /** Identifiers of a sequence of items, in order. */
  function Ids(items: seq<Item>): (r: seq<string>)
    ensures |r| == |items|
    decreases |items|
  {
    if items == [] then [] else Ids(items[..|items| - 1]) + [items[|items| - 1].id]
  }

  /** Independent description of the kept identifiers: `entry_id` of every
      entry, empty ones dropped. */
  function KeptIds(entries: seq<RawEntry>): seq<string>
    decreases |entries|
  {
    if entries == [] then []
    else
      var eid := EntryId(entries[|entries| - 1]);
      KeptIds(entries[..|entries| - 1]) + (if eid == "" then [] else [eid])
  }

  /** A whitespace-only `id` is truthy, so it is chosen and strips to "": the
      entry is dropped even when `guid` or `link` would have given an
      identifier. */
  lemma BlankIdDropsEntry(unescape: string -> string, e: RawEntry)
    requires e.id.Some? && e.id.value != "" && AllSpace(e.id.value)
    ensures EntryId(e) == ""
    ensures Normalize(unescape, e) == None
  {
    StripEmpty(e.id.value);
  }

  /** The loop of `main` that builds `items` (lines 69-77). */
  method CollectItems(unescape: string -> string, entries: seq<RawEntry>) returns (items: seq<Item>)
    ensures items == NormalizeAll(unescape, entries)
    ensures forall it :: it in items ==> WellFormed(it)
  {
    items := [];
    var i := 0;
    while i < |entries|
      invariant i <= |entries|
      invariant items == NormalizeAll(unescape, entries[..i])
    {
      var next := Normalize(unescape, entries[i]);
      NormalizeAllStep(unescape, entries, i);
      var prefix := NormalizeAll(unescape, entries[..i + 1]);
      if next.Some? {           // otherwise `continue`: no identifier
        items := items + [next.value];
        assert items == prefix;
      } else {
        assert items == prefix;
      }
      i := i + 1;
    }
    assert entries[..i] == entries;
    NormalizeAllWellFormed(unescape, entries);
  }
}
