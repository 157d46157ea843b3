/** Tags: named snippets of text a guild's members store and recall.

    The `tags` table is a sequence of rows held by `TagTable`. Every command
    takes a lower-case name; only a tag's owner may edit or delete it; an
    unknown name gets at most one "did you mean" suggestion; the list
    commands build one page per tag in sorted (name, id) order with a
    shortened preview of its content. Fresh tag ids, which the bot derives
    from the clock, are an input. */
module Tags {
  import opened Wrappers
  import opened Rows
  import Text

  const MaxTagNameLength := 25
  const PreviewLength := 350

  /** A row of `tags`. */
  datatype Tag = Tag(guild: nat, owner: nat, id: string, name: string, content: string)

  /** Why a command refuses to act. */
  datatype Refusal = BadIdentifier | NameTooLong | TagExists | NoSuchTag | NotOwner | DuplicateContent | NoTags

  // ---------------------------------------------------------------------------
  // Queries over the table

  /** `SELECT TagName FROM tags WHERE GuildID = ?`. */
  function Names(tags: seq<Tag>, guild: nat): (names: seq<string>)
    ensures |names| <= |tags|
    ensures forall n :: n in names <==> exists t :: t in tags && t.guild == guild && t.name == n
  {
    if tags == [] then []
    else
      var rest := Names(tags[1..], guild);
      assert forall t :: t in tags <==> t == tags[0] || t in tags[1..];
      if tags[0].guild == guild then [tags[0].name] + rest else rest
  }

  /** `SELECT TagContent FROM tags WHERE GuildID = ?`. */
  function Contents(tags: seq<Tag>, guild: nat): (contents: seq<string>)
    ensures forall c :: c in contents <==> exists t :: t in tags && t.guild == guild && t.content == c
  {
    if tags == [] then []
    else
      var rest := Contents(tags[1..], guild);
      assert forall t :: t in tags <==> t == tags[0] || t in tags[1..];
      if tags[0].guild == guild then [tags[0].content] + rest else rest
  }

  /** `db.record(... WHERE GuildID = ? AND TagName = ?)`: the first such row. */
  function Lookup(tags: seq<Tag>, guild: nat, name: string): (r: Option<Tag>)
    ensures r.Some? <==> name in Names(tags, guild)
    ensures r.Some? ==> r.value in tags && r.value.guild == guild && r.value.name == name
  {
    if tags == [] then None
    else if tags[0].guild == guild && tags[0].name == name then Some(tags[0])
    else Lookup(tags[1..], guild, name)
  }

  predicate Distinct(a: Tag, b: Tag)
  {
    a.guild == b.guild ==> a.name != b.name
  }

  /** Names are unique within a guild. */
  ghost predicate Unique(tags: seq<Tag>)
  {
    forall i, j :: 0 <= i < j < |tags| ==> Distinct(tags[i], tags[j])
  }

  /** Names are lower case and at most 25 characters long. */
  ghost predicate WellNamed(tags: seq<Tag>)
  {
    forall t :: t in tags ==> !Text.HasNonLowercase(t.name) && |t.name| <= MaxTagNameLength
  }

  /** With unique names, looking a tag's name up finds that tag. */
  lemma LookupFinds(tags: seq<Tag>, t: Tag)
    requires Unique(tags) && t in tags
    ensures Lookup(tags, t.guild, t.name) == Some(t)
  {
    var r := Lookup(tags, t.guild, t.name);
    assert r.Some?;
    var i :| 0 <= i < |tags| && tags[i] == t;
    var j :| 0 <= j < |tags| && tags[j] == r.value;
  }

  // ---------------------------------------------------------------------------
  // Showing a tag, and the suggestion for an unknown name

  /** What the suggestion loop ends with: no suggestion, one name, or the
      `IndexError` that `[0]` raises on an empty name. */
  datatype Suggestion = NoSuggestion | Suggest(name: string) | IndexError

  /** The suggestion loop: the first name whose first letter is the first
      letter of the unknown name, where an empty name on either side raises
      when its turn comes. */
  function FirstSharing(names: seq<string>, name: string): (r: Suggestion)
    ensures r.Suggest? ==> r.name in names && |r.name| > 0 && |name| > 0 && r.name[0] == name[0]
    ensures r.Suggest? ==> exists k :: (0 <= k < |names| && names[k] == r.name
      && forall j :: 0 <= j < k ==> |names[j]| > 0 && names[j][0] != name[0])
    ensures r.NoSuggestion? <==>
      |names| == 0 || (|name| > 0 && forall k :: 0 <= k < |names| ==> |names[k]| > 0 && names[k][0] != name[0])
  {
    if names == [] then NoSuggestion
    else if |names[0]| == 0 || |name| == 0 then IndexError
    else if names[0][0] == name[0] then Suggest(names[0])
    else
      var r := FirstSharing(names[1..], name);
      assert forall k :: 1 <= k < |names| ==> names[k] == names[1..][k - 1];
      assert r.Suggest? ==> exists k :: (0 <= k < |names| && names[k] == r.name
        && forall j :: 0 <= j < k ==> |names[j]| > 0 && names[j][0] != name[0]) by {
        if r.Suggest? {
          var k :| 0 <= k < |names[1..]| && names[1..][k] == r.name
            && forall j :: 0 <= j < k ==> |names[1..][j]| > 0 && names[1..][j][0] != name[0];
          assert names[k + 1] == r.name;
          assert forall j :: 1 <= j < k + 1 ==> names[j] == names[1..][j - 1];
        }
      }
      r
  }

  /** `tag_command`'s loop: it appends the first matching name to `cache` and
      replies at once, so the reply names exactly one tag. */
  method SuggestName(names: seq<string>, name: string) returns (r: Suggestion)
    ensures r == FirstSharing(names, name)
  {
    var cache: seq<string> := [];
    for x := 0 to |names|
      invariant FirstSharing(names, name) == FirstSharing(names[x..], name)
      invariant cache == []
    {
      assert names[x..][0] == names[x] && names[x..][1..] == names[x + 1..];
      if |names[x]| == 0 || |name| == 0 {
        return IndexError;
      }
      if names[x][0] == name[0] {
        cache := cache + [names[x]];
        return Suggest(Text.Join(cache, "\n"));
      }
    }
    assert names[|names|..] == [];
    r := NoSuggestion;
  }

  /** The reply of `tag`. */
  datatype Shown = RefusedName | Content(text: string) | Unknown(suggestion: Suggestion)

  // ---------------------------------------------------------------------------
  // Checks and updates

  /** The checks of `tags new`, in its order. */
  function CheckCreate(names: seq<string>, name: string): (e: Option<Refusal>)
    ensures e.None? <==> !Text.HasNonLowercase(name) && |name| <= MaxTagNameLength && name !in names
  {
    if Text.HasNonLowercase(name) then Some(BadIdentifier)
    else if |name| > MaxTagNameLength then Some(NameTooLong)
    else if name in names then Some(TagExists)
    else None
  }

  /** The checks of `tags edit`, in its order. Without a row the unpacking of
      `db.record` fails before the owner check; with one, the name check that
      follows cannot fail. The new content is compared with the content of
      every tag of the guild. */
  function CheckEdit(tags: seq<Tag>, guild: nat, author: nat, name: string, content: string): (e: Option<Refusal>)
    ensures e.None? <==> !Text.HasNonLowercase(name) && Lookup(tags, guild, name).Some?
                         && Lookup(tags, guild, name).value.owner == author
                         && content !in Contents(tags, guild)
  {
    if Text.HasNonLowercase(name) then Some(BadIdentifier)
    else if Lookup(tags, guild, name).None? then Some(NoSuchTag)
    else if Lookup(tags, guild, name).value.owner != author then Some(NotOwner)
    else if content in Contents(tags, guild) then Some(DuplicateContent)
    else None
  }

  /** The checks of `tags delete`, in its order. */
  function CheckDelete(tags: seq<Tag>, guild: nat, author: nat, name: string): (e: Option<Refusal>)
    ensures e.None? <==> !Text.HasNonLowercase(name) && Lookup(tags, guild, name).Some?
                         && Lookup(tags, guild, name).value.owner == author
  {
    if Text.HasNonLowercase(name) then Some(BadIdentifier)
    else if Lookup(tags, guild, name).None? then Some(NoSuchTag)
    else if Lookup(tags, guild, name).value.owner != author then Some(NotOwner)
    else None
  }

  /** `UPDATE tags SET TagContent = ? WHERE GuildID = ? AND TagName = ?`. */
  function SetContent(tags: seq<Tag>, guild: nat, name: string, content: string): (r: seq<Tag>)
  {
    seq(|tags|, i requires 0 <= i < |tags| =>
      if tags[i].guild == guild && tags[i].name == name then tags[i].(content := content) else tags[i])
  }

  function NameIs(guild: nat, name: string): Tag -> bool
  {
    (t: Tag) => t.guild == guild && t.name == name
  }

  /** After an edit the tag shows the new content; its owner, id and name,
      and every other tag, are as they were. */
  lemma EditShowsContent(tags: seq<Tag>, guild: nat, name: string, content: string)
    requires Unique(tags) && name in Names(tags, guild)
    ensures var after := SetContent(tags, guild, name, content);
      var before := Lookup(tags, guild, name).value;
      && Lookup(after, guild, name) == Some(before.(content := content))
      && forall i :: 0 <= i < |tags| && !(tags[i].guild == guild && tags[i].name == name) ==> after[i] == tags[i]
  {
    var after := SetContent(tags, guild, name, content);
    var before := Lookup(tags, guild, name).value;
    var i :| 0 <= i < |tags| && tags[i] == before;
    assert after[i] == before.(content := content);
    assert Unique(after) by {
      forall a, b | 0 <= a < b < |after|
        ensures Distinct(after[a], after[b])
      {
        assert Distinct(tags[a], tags[b]);
      }
    }
    LookupFinds(after, after[i]);
  }

  /** Deleting a tag just created gives back the table: a fresh name selects
      no older row. */
  lemma DeleteUndoesCreate(tags: seq<Tag>, t: Tag)
    requires t.name !in Names(tags, t.guild)
    ensures Filter(tags + [t], NameIs(t.guild, t.name)) == tags
  {
    forall i | 0 <= i < |tags|
      ensures !NameIs(t.guild, t.name)(tags[i])
    {
      assert tags[i] in tags;
    }
    FilterSnocDropped(tags, t, NameIs(t.guild, t.name));
  }

  // ---------------------------------------------------------------------------
  // Previews

  /** `replace('<', '\\<')`. */
  function Escape(s: string): (r: string)
    ensures |r| >= |s|
    ensures forall i :: 0 <= i < |r| && r[i] == '<' ==> i > 0 && r[i - 1] == '\\'
    ensures r == [] || r[0] != '<'
  {
    if s == [] then []
    else
      var rest := Escape(s[1..]);
      var head := if s[0] == '<' then "\\<" else [s[0]];
      assert forall i :: |head| <= i < |head| + |rest| ==> (head + rest)[i] == rest[i - |head|];
      head + rest
  }

  /** Reading an escaped text back: `\<` stands for `<`. */
  function Unescape(s: string): string
  {
    if s == [] then []
    else if |s| >= 2 && s[0] == '\\' && s[1] == '<' then "<" + Unescape(s[2..])
    else [s[0]] + Unescape(s[1..])
  }

  /** Escaping loses nothing. */
  lemma {:induction false} EscapeRoundTrip(s: string)
    ensures Unescape(Escape(s)) == s
  {
    if s != [] {
      EscapeRoundTrip(s[1..]);
      var rest := Escape(s[1..]);
      if s[0] == '<' {
        assert Escape(s) == "\\<" + rest;
        assert ("\\<" + rest)[2..] == rest;
      } else {
        assert Escape(s) == [s[0]] + rest;
        assert ([s[0]] + rest)[1..] == rest;
      }
      assert s == [s[0]] + s[1..];
    }
  }

  /** The preview on a list page: the escaped content cut to 350 characters,
      then `...`. */
  function Preview(content: string): (p: string)
    ensures |p| <= PreviewLength + 3
  {
    var e := Escape(content);
    (if |e| <= PreviewLength then e else e[..PreviewLength]) + "..."
  }

  /** The preview, without its `...`, starts the escaped content and holds all
      of it when it fits; no `<` in it is left unescaped, and a content that
      fits is read back whole. */
  lemma PreviewReadsBack(content: string)
    ensures var p := Preview(content); var e := Escape(content);
      && |p| >= 3 && p[|p| - 3..] == "..."
      && p[..|p| - 3] <= e
      && (|e| <= PreviewLength ==> p[..|p| - 3] == e && Unescape(p[..|p| - 3]) == content)
      && (|e| > PreviewLength ==> p == e[..PreviewLength] + "...")
      && forall i :: 0 <= i < |p| - 3 && p[i] == '<' ==> i > 0 && p[i - 1] == '\\'
  {
    var p := Preview(content);
    var e := Escape(content);
    var cut := if |e| <= PreviewLength then e else e[..PreviewLength];
    assert p == cut + "...";
    assert p[..|p| - 3] == cut;
    EscapeRoundTrip(content);
  }

  // ---------------------------------------------------------------------------
  // List pages

  /** A `(TagName, TagID)` record. */
  datatype Entry = Entry(name: string, id: string)

  /** Python's `<=` on `(name, id)` tuples. */
  predicate EntryBelow(a: Entry, b: Entry)
  {
    if a.name == b.name then Text.Below(a.id, b.id) else Text.Below(a.name, b.name)
  }

  lemma EntryTotal(a: Entry, b: Entry)
    ensures EntryBelow(a, b) || EntryBelow(b, a)
  {
    Text.BelowTotal(a.name, b.name);
    Text.BelowTotal(a.id, b.id);
  }

  lemma EntryTransitive(a: Entry, b: Entry, c: Entry)
    requires EntryBelow(a, b) && EntryBelow(b, c)
    ensures EntryBelow(a, c)
  {
    if a.name == b.name && b.name == c.name {
      Text.BelowTransitive(a.id, b.id, c.id);
    } else if a.name == c.name {
      Text.BelowAntisymmetric(a.name, b.name);
    } else {
      Text.BelowReflexive(b.name);
      Text.BelowTransitive(a.name, b.name, c.name);
    }
  }

  /** Each entry is at most the next one. */
  ghost predicate Sorted(s: seq<Entry>)
  {
    forall i :: 0 < i < |s| ==> EntryBelow(s[i - 1], s[i])
  }

  function Insert(x: Entry, s: seq<Entry>): (r: seq<Entry>)
    requires Sorted(s)
    ensures Sorted(r) && multiset(r) == multiset(s) + multiset{x}
    ensures r[0] == x || (|s| > 0 && r[0] == s[0])
  {
    if s == [] then [x]
    else if EntryBelow(x, s[0]) then [x] + s
    else
      EntryTotal(x, s[0]);
      SortedTail(s);
      var rest := Insert(x, s[1..]);
      assert s == [s[0]] + s[1..];
      assert |s| > 1 ==> EntryBelow(s[0], s[1]);
      SortedCons(s[0], rest);
      [s[0]] + rest
  }

  lemma SortedTail(s: seq<Entry>)
    requires Sorted(s) && s != []
    ensures Sorted(s[1..])
  {
    forall i | 0 < i < |s[1..]|
      ensures EntryBelow(s[1..][i - 1], s[1..][i])
    {
      assert s[1..][i - 1] == s[i] && s[1..][i] == s[i + 1];
    }
  }

  lemma SortedCons(x: Entry, s: seq<Entry>)
    requires Sorted(s) && (s != [] ==> EntryBelow(x, s[0]))
    ensures Sorted([x] + s)
  {
    forall i | 0 < i < |[x] + s|
      ensures EntryBelow(([x] + s)[i - 1], ([x] + s)[i])
    {
      if i > 1 {
        assert ([x] + s)[i - 1] == s[i - 2] && ([x] + s)[i] == s[i - 1];
      }
    }
  }

  /** `sorted(records)`. */
  function Sort(s: seq<Entry>): (r: seq<Entry>)
    ensures Sorted(r) && multiset(r) == multiset(s)
  {
    if s == [] then []
    else
      assert s == [s[0]] + s[1..];
      Insert(s[0], Sort(s[1..]))
  }

  /** In a sorted list every entry is at most every later one. */
  lemma {:induction false} SortedAll(s: seq<Entry>)
    requires Sorted(s)
    ensures forall i, j :: 0 <= i < j < |s| ==> EntryBelow(s[i], s[j])
  {
    if |s| > 1 {
      var tail := s[1..];
      assert Sorted(tail) by {
        forall i | 0 < i < |tail|
          ensures EntryBelow(tail[i - 1], tail[i])
        {
          assert tail[i - 1] == s[i] && tail[i] == s[i + 1];
        }
      }
      SortedAll(tail);
      forall i, j | 0 <= i < j < |s|
        ensures EntryBelow(s[i], s[j])
      {
        if i == 0 {
          if j > 1 {
            assert s[1] == tail[0] && s[j] == tail[j - 1];
            EntryTransitive(s[0], s[1], s[j]);
          }
        } else {
          assert s[i] == tail[i - 1] && s[j] == tail[j - 1];
        }
      }
    }
  }

  /** Which rows a list shows: the guild's, and only the owner's when one is
      given. */
  predicate Listed(t: Tag, guild: nat, owner: Option<nat>)
  {
    t.guild == guild && (owner.Some? ==> t.owner == owner.value)
  }

  /** `SELECT TagName, TagID FROM tags WHERE ...`. */
  function Entries(tags: seq<Tag>, guild: nat, owner: Option<nat>): (es: seq<Entry>)
    ensures |es| <= |tags|
    ensures forall e :: e in es <==> exists t :: t in tags && Listed(t, guild, owner) && e == Entry(t.name, t.id)
  {
    if tags == [] then []
    else
      var rest := Entries(tags[1..], guild, owner);
      assert forall t :: t in tags <==> t == tags[0] || t in tags[1..];
      if Listed(tags[0], guild, owner) then [Entry(tags[0].name, tags[0].id)] + rest else rest
  }

  /** The page of one tag: its name, the id and content found by name, and
      the preview. */
  datatype Page = Page(name: string, id: string, preview: string)

  function PageFor(tags: seq<Tag>, guild: nat, e: Entry): Page
    requires e.name in Names(tags, guild)
  {
    var t := Lookup(tags, guild, e.name).value;
    Page(e.name, t.id, Preview(t.content))
  }

  /** The sorted records, each of which names a tag of the guild. */
  function SortedEntries(tags: seq<Tag>, guild: nat, owner: Option<nat>): (s: seq<Entry>)
    ensures Sorted(s) && multiset(s) == multiset(Entries(tags, guild, owner))
    ensures forall i :: 0 <= i < |s| ==> s[i].name in Names(tags, guild)
  {
    var s := Sort(Entries(tags, guild, owner));
    assert forall i :: 0 <= i < |s| ==> s[i].name in Names(tags, guild) by {
      forall i | 0 <= i < |s|
        ensures s[i].name in Names(tags, guild)
      {
        assert s[i] in multiset(s);
        assert s[i] in Entries(tags, guild, owner);
      }
    }
    s
  }

  /** The pages of a list: one per record, in sorted order. */
  function Listing(tags: seq<Tag>, guild: nat, owner: Option<nat>): seq<Page>
  {
    var s := SortedEntries(tags, guild, owner);
    seq(|s|, i requires 0 <= i < |s| => PageFor(tags, guild, s[i]))
  }

  /** The pages of the sorted records, one by one, are the listing. */
  lemma ListingIs(tags: seq<Tag>, guild: nat, owner: Option<nat>, pages: seq<Page>)
    requires |pages| == |SortedEntries(tags, guild, owner)|
    requires forall k :: 0 <= k < |pages| ==> pages[k] == PageFor(tags, guild, SortedEntries(tags, guild, owner)[k])
    ensures pages == Listing(tags, guild, owner)
  {
  }

  /** A list has one page per listed tag, in name order. */
  lemma ListingSorted(tags: seq<Tag>, guild: nat, owner: Option<nat>)
    ensures var pages := Listing(tags, guild, owner);
      && |pages| == |Entries(tags, guild, owner)|
      && forall i, j :: 0 <= i < j < |pages| ==> Text.Below(pages[i].name, pages[j].name)
  {
    var s := SortedEntries(tags, guild, owner);
    var pages := Listing(tags, guild, owner);
    assert |s| == |Entries(tags, guild, owner)| by {
      assert |multiset(s)| == |multiset(Entries(tags, guild, owner))|;
    }
    SortedAll(s);
    forall i, j | 0 <= i < j < |pages|
      ensures Text.Below(pages[i].name, pages[j].name)
    {
      assert EntryBelow(s[i], s[j]);
      if s[i].name == s[j].name {
        Text.BelowReflexive(s[i].name);
      }
    }
  }

  /** Each page shows a listed tag: its name, its id and the preview of its
      content. */
  lemma ListingPageIsTag(tags: seq<Tag>, guild: nat, owner: Option<nat>, i: nat)
    requires Unique(tags) && i < |Listing(tags, guild, owner)|
    ensures exists t :: (t in tags && Listed(t, guild, owner)
      && Listing(tags, guild, owner)[i] == Page(t.name, t.id, Preview(t.content)))
  {
    var s := SortedEntries(tags, guild, owner);
    assert s[i] in multiset(s);
    assert s[i] in Entries(tags, guild, owner);
    var t :| t in tags && Listed(t, guild, owner) && s[i] == Entry(t.name, t.id);
    LookupFinds(tags, t);
  }

  /** Every listed tag has its page. */
  lemma ListingCoversTag(tags: seq<Tag>, guild: nat, owner: Option<nat>, t: Tag)
    requires Unique(tags) && t in tags && Listed(t, guild, owner)
    ensures exists i :: (0 <= i < |Listing(tags, guild, owner)|
      && Listing(tags, guild, owner)[i] == Page(t.name, t.id, Preview(t.content)))
  {
    var s := SortedEntries(tags, guild, owner);
    var e := Entry(t.name, t.id);
    assert e in Entries(tags, guild, owner);
    assert e in multiset(s);
    var i :| 0 <= i < |s| && s[i] == e;
    LookupFinds(tags, t);
    assert Listing(tags, guild, owner)[i] == Page(t.name, t.id, Preview(t.content));
  }

  /** What a list command sends: how many tags it lists, out of how many in
      the guild, and the pages. */
  datatype TagList = TagList(count: nat, total: nat, pages: seq<Page>)

  // ---------------------------------------------------------------------------
  // The table

  class TagTable {
    var tags: seq<Tag>

    ghost predicate Valid()
      reads this
    {
      Unique(tags) && WellNamed(tags)
    }

    constructor ()
      ensures Valid() && tags == []
    {
      tags := [];
    }

    /** `tag`: the content of a known tag, or the suggestion for an unknown one. */
    method Show(guild: nat, name: string) returns (shown: Shown)
      ensures Text.HasNonLowercase(name) ==> shown == RefusedName
      ensures !Text.HasNonLowercase(name) && name in Names(tags, guild) ==>
        shown == Content(Lookup(tags, guild, name).value.content)
      ensures !Text.HasNonLowercase(name) && name !in Names(tags, guild) ==>
        shown == Unknown(FirstSharing(Names(tags, guild), name))
    {
      if Text.HasNonLowercase(name) {
        return RefusedName;
      }
      var names := Names(tags, guild);
      if name !in names {
        var suggestion := SuggestName(names, name);
        return Unknown(suggestion);
      }
      shown := Content(Lookup(tags, guild, name).value.content);
    }

    /** `tags new`: the checks, then one row owned by the author. */
    method Create(guild: nat, author: nat, id: string, name: string, content: string) returns (refusal: Option<Refusal>)
      requires Valid()
      modifies this
      ensures Valid()
      ensures refusal == CheckCreate(Names(old(tags), guild), name)
      ensures refusal.Some? ==> tags == old(tags)
      ensures refusal.None? ==> tags == old(tags) + [Tag(guild, author, id, name, content)]
    {
      refusal := CheckCreate(Names(tags, guild), name);
      if refusal.None? {
        var t := Tag(guild, author, id, name, content);
        forall i | 0 <= i < |tags|
          ensures Distinct(tags[i], t)
        {
          assert tags[i] in tags;
        }
        tags := tags + [t];
      }
    }

    /** `tags edit`: the checks, then the new content. */
    method Edit(guild: nat, author: nat, name: string, content: string) returns (refusal: Option<Refusal>)
      requires Valid()
      modifies this
      ensures Valid()
      ensures refusal == CheckEdit(old(tags), guild, author, name, content)
      ensures refusal.Some? ==> tags == old(tags)
      ensures refusal.None? ==> tags == SetContent(old(tags), guild, name, content)
    {
      refusal := CheckEdit(tags, guild, author, name, content);
      if refusal.None? {
        var after := SetContent(tags, guild, name, content);
        forall a, b | 0 <= a < b < |after|
          ensures Distinct(after[a], after[b])
        {
          assert Distinct(tags[a], tags[b]);
        }
        forall t | t in after
          ensures !Text.HasNonLowercase(t.name) && |t.name| <= MaxTagNameLength
        {
          var i :| 0 <= i < |after| && after[i] == t;
          assert tags[i] in tags;
        }
        tags := after;
      }
    }

    /** `tags delete`: the checks, then the row goes. A row was found, so the
        delete removes it and the "does not exist" reply after it cannot be
        reached. */
    method Delete(guild: nat, author: nat, name: string) returns (refusal: Option<Refusal>)
      requires Valid()
      modifies this
      ensures Valid()
      ensures refusal == CheckDelete(old(tags), guild, author, name)
      ensures refusal.Some? ==> tags == old(tags)
      ensures refusal.None? ==> tags == Filter(old(tags), NameIs(guild, name)) && name !in Names(tags, guild)
    {
      refusal := CheckDelete(tags, guild, author, name);
      if refusal.None? {
        FilterKeepsPairwise(tags, NameIs(guild, name), Distinct);
        tags := Filter(tags, NameIs(guild, name));
      }
    }

    /** `tags info`: owner and id of a known tag. */
    method Info(guild: nat, name: string) returns (r: Result<(nat, string), Refusal>)
      ensures Text.HasNonLowercase(name) ==> r == Err(BadIdentifier)
      ensures !Text.HasNonLowercase(name) ==>
        (r.Err? <==> name !in Names(tags, guild)) && (r.Err? ==> r.error == NoSuchTag)
      ensures r.Ok? ==> exists t :: t in tags && t.guild == guild && t.name == name && r.value == (t.owner, t.id)
    {
      if Text.HasNonLowercase(name) {
        return Err(BadIdentifier);
      }
      if name !in Names(tags, guild) {
        return Err(NoSuchTag);
      }
      var t := Lookup(tags, guild, name).value;
      r := Ok((t.owner, t.id));
    }

    /** The loop that appends one page per sorted record. */
    method BuildPages(guild: nat, owner: Option<nat>) returns (pages: seq<Page>)
      ensures pages == Listing(tags, guild, owner)
    {
      var records := SortedEntries(tags, guild, owner);
      pages := [];
      for i := 0 to |records|
        invariant |pages| == i
        invariant forall k :: 0 <= k < i ==> pages[k] == PageFor(tags, guild, records[k])
      {
        pages := pages + [PageFor(tags, guild, records[i])];
      }
      ListingIs(tags, guild, owner, pages);
    }

    /** `tags list`: every tag of the guild. */
    method ListAll(guild: nat) returns (list: TagList)
      ensures list.count == list.total == |Names(tags, guild)|
      ensures list.pages == Listing(tags, guild, None)
    {
      var pages := BuildPages(guild, None);
      list := TagList(|Names(tags, guild)|, |Names(tags, guild)|, pages);
    }

    /** `tags all`: the tags of the target, or of the author when none is
        given; refused when they own none. */
    method ListMember(guild: nat, author: nat, target: Option<nat>) returns (r: Result<TagList, Refusal>)
      ensures var owner := if target.Some? then target.value else author;
        && (r.Err? <==> Entries(tags, guild, Some(owner)) == [])
        && (r.Err? ==> r.error == NoTags)
        && (r.Ok? ==> r.value == TagList(|Entries(tags, guild, Some(owner))|, |Names(tags, guild)|,
                                         Listing(tags, guild, Some(owner))))
    {
      var owner := if target.Some? then target.value else author;
      var mine := Entries(tags, guild, Some(owner));
      if |mine| == 0 {
        return Err(NoTags);
      }
      var pages := BuildPages(guild, Some(owner));
      r := Ok(TagList(|mine|, |Names(tags, guild)|, pages));
    }
  }
}
