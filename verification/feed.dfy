/**
 * Entry identity and ingestion (internal/feed/fetcher.go): the id a feed item is
 * stored under, and the loop that saves a parsed feed's items into the entry store.
 * SHA-256 and JSON encoding are parameters: sha256 maps a string to a 32-byte
 * digest, marshal maps an item to its JSON bytes or fails.
 */
module Feed {
  import opened Wrappers
  import opened Database

  /** A SHA-256 digest. */
  type Digest = d: seq<bv8> | |d| == 32 witness seq(32, _ => 0 as bv8)

  /**
   * A parsed-feed item: the fields the id is made of, and the rest of the item
   * (description, content, author, categories, enclosures, ...) held as one
   * value. publishedParsed is the string form of the parsed publication time,
   * when the parser found one.
   */
  datatype Item = Item(guid: string, title: string, link: string, published: string, publishedParsed: Option<string>,
                       otherFields: seq<string>)

  /** A parsed feed. */
  datatype ParsedFeed = ParsedFeed(title: string, items: seq<Item>)

  // ---------------------------------------------------------------------------
  // Lowercase hexadecimal
  // ---------------------------------------------------------------------------

  /** The lowercase hex digit for 0..15. */
  function HexDigit(n: nat): (c: char)
    requires n < 16
    ensures IsHexDigit(c)
  {
    if n < 10 then ('0' as int + n) as char else ('a' as int + n - 10) as char
  }

  predicate IsHexDigit(c: char) {
    '0' <= c <= '9' || 'a' <= c <= 'f'
  }

  predicate AllHexDigits(s: string) {
    forall i :: 0 <= i < |s| ==> IsHexDigit(s[i])
  }

  /** The value of a lowercase hex digit. */
  function HexValue(c: char): (r: Option<nat>)
    ensures r.Some? <==> IsHexDigit(c)
    ensures r.Some? ==> r.value < 16
  {
    if '0' <= c <= '9' then Some(c as int - '0' as int)
    else if 'a' <= c <= 'f' then Some(c as int - 'a' as int + 10)
    else None
  }

  /** hex.EncodeToString: two lowercase digits per byte, high nibble first. */
  function HexEncode(bytes: seq<bv8>): (s: string)
    ensures |s| == 2 * |bytes|
    ensures AllHexDigits(s)
  {
    if bytes == [] then []
    else [HexDigit(bytes[0] as int / 16), HexDigit(bytes[0] as int % 16)] + HexEncode(bytes[1..])
  }

  /** The inverse of HexEncode on lowercase hex strings of even length. */
  function HexDecode(s: string): Option<seq<bv8>>
  {
    if s == [] then Some([])
    else if |s| == 1 then None
    else
      match (HexValue(s[0]), HexValue(s[1]), HexDecode(s[2..]))
      case (Some(hi), Some(lo), Some(rest)) => Some([(hi * 16 + lo) as bv8] + rest)
      case _ => None
  }

  lemma HexDigitValue(n: nat)
    requires n < 16
    ensures HexValue(HexDigit(n)) == Some(n)
  {
  }

  /** A byte is its high nibble times 16 plus its low nibble. */
  lemma ByteNibbles(b: bv8)
    ensures ((b as int / 16) * 16 + b as int % 16) as bv8 == b
  {
  }

  /** Decoding two digits in front of a string decodes the rest and prepends their byte. */
  lemma HexDecodePair(hi: nat, lo: nat, rest: string)
    requires hi < 16 && lo < 16
    ensures HexDecode([HexDigit(hi), HexDigit(lo)] + rest)
         == if HexDecode(rest).Some? then Some([(hi * 16 + lo) as bv8] + HexDecode(rest).value) else None
  {
    var s := [HexDigit(hi), HexDigit(lo)] + rest;
    HexDigitValue(hi);
    HexDigitValue(lo);
    assert s[0] == HexDigit(hi) && s[1] == HexDigit(lo) && s[2..] == rest;
  }

  /** Decoding an encoding gives the bytes back, so the encoding is injective. */
  lemma {:induction false} HexRoundTrip(bytes: seq<bv8>)
    ensures HexDecode(HexEncode(bytes)) == Some(bytes)
  {
    if bytes != [] {
      var b := bytes[0];
      var hi, lo := b as int / 16, b as int % 16;
      HexRoundTrip(bytes[1..]);
      assert HexEncode(bytes) == [HexDigit(hi), HexDigit(lo)] + HexEncode(bytes[1..]);
      HexDecodePair(hi, lo, HexEncode(bytes[1..]));
      ByteNibbles(b);
      assert [b] + bytes[1..] == bytes;
    }
  }

  // ---------------------------------------------------------------------------
  // GenerateEntryID
  // ---------------------------------------------------------------------------

  /** The date part of the hashed string: Published, else the parsed time's text, else "". */
  function PublishedSegment(item: Item): (p: string)
    ensures item.published != "" ==> p == item.published
    ensures item.published == "" && item.publishedParsed.Some? ==> p == item.publishedParsed.value
    ensures item.published == "" && item.publishedParsed.None? ==> p == ""
  {
    if item.published != "" then item.published
    else if item.publishedParsed.Some? then item.publishedParsed.value
    else ""
  }

  /** The string hashed when an item has no GUID. */
  function HashInput(item: Item): string {
    item.title + item.link + PublishedSegment(item)
  }

  /** The item's id: its GUID, or the hex SHA-256 of HashInput. */
  function GenerateEntryID(item: Item, sha256: string -> Digest): string {
    if item.guid != "" then item.guid else HexEncode(sha256(HashInput(item)))
  }

  /**
   * The id is the GUID when there is one; otherwise it is 64 lowercase hex digits
   * that decode to the SHA-256 of title ++ link ++ published segment.
   */
  lemma EntryIdShape(item: Item, sha256: string -> Digest)
    ensures var id := GenerateEntryID(item, sha256);
      && (item.guid != "" ==> id == item.guid)
      && (item.guid == "" ==> |id| == 64 && AllHexDigits(id))
      && (item.guid == "" ==> HexDecode(id) == Some(sha256(HashInput(item))))
  {
    if item.guid == "" {
      HexRoundTrip(sha256(HashInput(item)));
    }
  }

  /** A GUID is the id whatever the title, link and dates. */
  lemma GuidWins(a: Item, b: Item, sha256: string -> Digest)
    requires a.guid != "" && a.guid == b.guid
    ensures GenerateEntryID(a, sha256) == GenerateEntryID(b, sha256) == a.guid
  {
  }

  /**
   * Without GUIDs, ids depend only on the concatenation: items whose
   * title ++ link ++ date strings are equal get equal ids.
   */
  lemma SameConcatenationSameId(a: Item, b: Item, sha256: string -> Digest)
    requires a.guid == "" && b.guid == ""
    requires a.title + a.link + PublishedSegment(a) == b.title + b.link + PublishedSegment(b)
    ensures GenerateEntryID(a, sha256) == GenerateEntryID(b, sha256)
  {
  }

  /** Only the GUID, title, link and dates make the id: the rest of the item never changes it. */
  lemma IdIgnoresOtherFields(item: Item, other: seq<string>, sha256: string -> Digest)
    ensures GenerateEntryID(item.(otherFields := other), sha256) == GenerateEntryID(item, sha256)
  {
  }

  /** The field boundary is lost: title "ab" with link "c" collides with title "a" with link "bc". */
  lemma FieldBoundaryCollision(sha256: string -> Digest)
    ensures GenerateEntryID(Item("", "ab", "c", "", None, []), sha256)
         == GenerateEntryID(Item("", "a", "bc", "", None, []), sha256)
  {
    assert "ab" + "c" + "" == "a" + "bc" + "";
  }

  /** A non-empty Published string wins over the parsed date. */
  lemma PublishedBeatsParsed(item: Item, parsed: Option<string>, sha256: string -> Digest)
    requires item.published != ""
    ensures GenerateEntryID(item.(publishedParsed := parsed), sha256) == GenerateEntryID(item, sha256)
  {
  }

  /** Two hashed ids are equal only when their digests are. */
  lemma HashedIdsDetermineDigest(a: Item, b: Item, sha256: string -> Digest)
    requires a.guid == "" && b.guid == ""
    requires GenerateEntryID(a, sha256) == GenerateEntryID(b, sha256)
    ensures sha256(HashInput(a)) == sha256(HashInput(b))
  {
    EntryIdShape(a, sha256);
    EntryIdShape(b, sha256);
  }

  // ---------------------------------------------------------------------------
  // SaveEntriesToDB
  // ---------------------------------------------------------------------------

  /** The items of a feed; a nil feed has none. */
  function ItemsOf(feed: Option<ParsedFeed>): seq<Item> {
    if feed.Some? then feed.value.items else []
  }

  /**
   * Whether SaveEntry succeeds for item i: its JSON encoding succeeded and the
   * statement did not fail (saveFails(i)).
   */
  predicate SavedAt(items: seq<Item>, i: nat, marshal: Item -> Option<Blob>, saveFails: nat -> bool)
    requires i < |items|
  {
    marshal(items[i]).Some? && !saveFails(i)
  }

  /** The table after the loop has handled items. */
  function SaveAll(t: Table, items: seq<Item>, marshal: Item -> Option<Blob>, sha256: string -> Digest,
                   saveFails: nat -> bool): Table
    decreases |items|
  {
    if items == [] then t
    else
      var n := |items| - 1;
      var prev := SaveAll(t, items[..n], marshal, sha256, saveFails);
      if SavedAt(items, n, marshal, saveFails) then
        Inserted(prev, GenerateEntryID(items[n], sha256), marshal(items[n]).value)
      else prev
  }

  /** savedCount: the items whose SaveEntry call returned no error, duplicates included. */
  function SaveCount(items: seq<Item>, marshal: Item -> Option<Blob>, saveFails: nat -> bool): (n: nat)
    ensures n <= |items|
    decreases |items|
  {
    if items == [] then 0
    else
      SaveCount(items[..|items| - 1], marshal, saveFails)
        + (if SavedAt(items, |items| - 1, marshal, saveFails) then 1 else 0)
  }

  /** The ids of those items. */
  function SavedIds(items: seq<Item>, marshal: Item -> Option<Blob>, sha256: string -> Digest,
                    saveFails: nat -> bool): set<string>
    decreases |items|
  {
    if items == [] then {}
    else
      var n := |items| - 1;
      SavedIds(items[..n], marshal, sha256, saveFails)
        + (if SavedAt(items, n, marshal, saveFails) then {GenerateEntryID(items[n], sha256)} else {})
  }

  /** An id is a saved id exactly when some item with that id was saved. */
  lemma {:induction false} SavedIdsMembers(items: seq<Item>, marshal: Item -> Option<Blob>,
                                           sha256: string -> Digest, saveFails: nat -> bool)
    ensures forall i :: 0 <= i < |items| && SavedAt(items, i, marshal, saveFails) ==>
              GenerateEntryID(items[i], sha256) in SavedIds(items, marshal, sha256, saveFails)
    ensures forall id :: id in SavedIds(items, marshal, sha256, saveFails) ==>
              exists i :: 0 <= i < |items| && SavedAt(items, i, marshal, saveFails) && GenerateEntryID(items[i], sha256) == id
    decreases |items|
  {
    if items != [] {
      var n := |items| - 1;
      var prefix := items[..n];
      SavedIdsMembers(prefix, marshal, sha256, saveFails);
      forall i | 0 <= i < n
        ensures prefix[i] == items[i]
        ensures SavedAt(prefix, i, marshal, saveFails) == SavedAt(items, i, marshal, saveFails)
      {
      }
    }
  }

  /** Saving keeps the table well formed. */
  lemma {:induction false} SaveAllWellFormed(t: Table, items: seq<Item>, marshal: Item -> Option<Blob>,
                                             sha256: string -> Digest, saveFails: nat -> bool)
    requires WellFormed(t)
    ensures WellFormed(SaveAll(t, items, marshal, sha256, saveFails))
    decreases |items|
  {
    if items != [] {
      var n := |items| - 1;
      SaveAllWellFormed(t, items[..n], marshal, sha256, saveFails);
      var prev := SaveAll(t, items[..n], marshal, sha256, saveFails);
      if SavedAt(items, n, marshal, saveFails) {
        InsertedWellFormed(prev, GenerateEntryID(items[n], sha256), marshal(items[n]).value);
      }
    }
  }

  /** One step of SaveAll, as it changes the keys and the saved ids. */
  lemma SaveAllStep(t: Table, items: seq<Item>, marshal: Item -> Option<Blob>,
                    sha256: string -> Digest, saveFails: nat -> bool)
    requires items != []
    ensures var n := |items| - 1;
      var prev := SaveAll(t, items[..n], marshal, sha256, saveFails);
      var before := SavedIds(items[..n], marshal, sha256, saveFails);
      var id := GenerateEntryID(items[n], sha256);
      if SavedAt(items, n, marshal, saveFails)
      then SaveAll(t, items, marshal, sha256, saveFails).rows.Keys == prev.rows.Keys + {id}
           && SavedIds(items, marshal, sha256, saveFails) == before + {id}
      else SaveAll(t, items, marshal, sha256, saveFails) == prev
           && SavedIds(items, marshal, sha256, saveFails) == before
  {
    var n := |items| - 1;
    if SavedAt(items, n, marshal, saveFails) {
      InsertedEffect(SaveAll(t, items[..n], marshal, sha256, saveFails), GenerateEntryID(items[n], sha256), marshal(items[n]).value);
    }
  }

  /** Saving adds exactly the saved items' ids. */
  lemma {:induction false} SaveAllKeys(t: Table, items: seq<Item>, marshal: Item -> Option<Blob>,
                                       sha256: string -> Digest, saveFails: nat -> bool)
    ensures SaveAll(t, items, marshal, sha256, saveFails).rows.Keys == t.rows.Keys + SavedIds(items, marshal, sha256, saveFails)
    decreases |items|
  {
    if items != [] {
      SaveAllKeys(t, items[..|items| - 1], marshal, sha256, saveFails);
      SaveAllStep(t, items, marshal, sha256, saveFails);
    }
  }

  /** Saving never alters a row the table already held. */
  lemma {:induction false} SaveAllKeepsRows(t: Table, items: seq<Item>, marshal: Item -> Option<Blob>,
                                            sha256: string -> Digest, saveFails: nat -> bool)
    ensures var r := SaveAll(t, items, marshal, sha256, saveFails);
      forall k :: k in t.rows ==> k in r.rows && r.rows[k] == t.rows[k]
    decreases |items|
  {
    if items != [] {
      var n := |items| - 1;
      SaveAllKeepsRows(t, items[..n], marshal, sha256, saveFails);
      var prev := SaveAll(t, items[..n], marshal, sha256, saveFails);
      if SavedAt(items, n, marshal, saveFails) {
        InsertedEffect(prev, GenerateEntryID(items[n], sha256), marshal(items[n]).value);
      }
    }
  }

  /** Saving adds exactly the saved items' ids and never alters an existing row. */
  lemma SaveAllFrame(t: Table, items: seq<Item>, marshal: Item -> Option<Blob>,
                     sha256: string -> Digest, saveFails: nat -> bool)
    ensures var r := SaveAll(t, items, marshal, sha256, saveFails);
      && r.rows.Keys == t.rows.Keys + SavedIds(items, marshal, sha256, saveFails)
      && (forall k :: k in t.rows ==> r.rows[k] == t.rows[k])
  {
    SaveAllKeys(t, items, marshal, sha256, saveFails);
    SaveAllKeepsRows(t, items, marshal, sha256, saveFails);
  }

  /** One more id adds one new id exactly when it is neither known nor already counted. */
  lemma NewIdsStep(known: set<string>, before: set<string>, id: string)
    ensures |(before + {id}) - known| == |before - known| + (if id in known || id in before then 0 else 1)
  {
    if id in known || id in before {
      assert (before + {id}) - known == before - known;
    } else {
      assert (before + {id}) - known == (before - known) + {id};
    }
  }

  /** The table grows by the number of saved ids it did not hold before. */
  lemma {:induction false} SaveAllGrowth(t: Table, items: seq<Item>, marshal: Item -> Option<Blob>,
                                         sha256: string -> Digest, saveFails: nat -> bool)
    ensures |SaveAll(t, items, marshal, sha256, saveFails).rows|
         == |t.rows| + |SavedIds(items, marshal, sha256, saveFails) - t.rows.Keys|
    decreases |items|
  {
    if items != [] {
      var n := |items| - 1;
      var prefix := items[..n];
      SaveAllGrowth(t, prefix, marshal, sha256, saveFails);
      SaveAllFrame(t, prefix, marshal, sha256, saveFails);
      var prev := SaveAll(t, prefix, marshal, sha256, saveFails);
      var before := SavedIds(prefix, marshal, sha256, saveFails);
      var after := SavedIds(items, marshal, sha256, saveFails);
      if SavedAt(items, n, marshal, saveFails) {
        var id := GenerateEntryID(items[n], sha256);
        InsertedEffect(prev, id, marshal(items[n]).value);
        NewIdsStep(t.rows.Keys, before, id);
      }
    }
  }

  /** With no marshal or storage failure every item counts and every item's id ends up stored. */
  lemma {:induction false} NoFaultsSavesAll(items: seq<Item>, marshal: Item -> Option<Blob>,
                                            sha256: string -> Digest, saveFails: nat -> bool)
    requires forall i :: 0 <= i < |items| ==> marshal(items[i]).Some? && !saveFails(i)
    ensures SaveCount(items, marshal, saveFails) == |items|
    ensures forall i :: 0 <= i < |items| ==> GenerateEntryID(items[i], sha256) in SavedIds(items, marshal, sha256, saveFails)
    decreases |items|
  {
    if items != [] {
      var n := |items| - 1;
      forall i | 0 <= i < n
        ensures marshal(items[..n][i]).Some? && !saveFails(i)
      {
        assert items[..n][i] == items[i];
      }
      NoFaultsSavesAll(items[..n], marshal, sha256, saveFails);
    }
    SavedIdsMembers(items, marshal, sha256, saveFails);
  }

  /** Saving items whose saved ids are all stored already changes nothing. */
  lemma {:induction false} ResaveIsNoOp(t: Table, items: seq<Item>, marshal: Item -> Option<Blob>,
                                        sha256: string -> Digest, saveFails: nat -> bool)
    requires SavedIds(items, marshal, sha256, saveFails) <= t.rows.Keys
    ensures SaveAll(t, items, marshal, sha256, saveFails) == t
    decreases |items|
  {
    if items != [] {
      var n := |items| - 1;
      var prefix := items[..n];
      ResaveIsNoOp(t, prefix, marshal, sha256, saveFails);
    }
  }

  /**
   * SaveEntriesToDB: one SaveEntry per item in order, skipping items that fail to
   * encode; failures are logged and skipped, never returned.
   */
  method SaveEntriesToDB(feed: Option<ParsedFeed>, db: EntryStore, marshal: Item -> Option<Blob>,
                         sha256: string -> Digest, saveFails: nat -> bool) returns (saved: nat)
    requires db.Valid()
    modifies db
    ensures db.Valid()
    ensures saved == SaveCount(ItemsOf(feed), marshal, saveFails)
    ensures db.State() == SaveAll(old(db.State()), ItemsOf(feed), marshal, sha256, saveFails)
  {
    if feed.None? || |feed.value.items| == 0 {
      return 0;
    }
    var items := feed.value.items;
    ghost var t0 := db.State();
    saved := 0;
    var i := 0;
    while i < |items|
      invariant 0 <= i <= |items|
      invariant db.Valid()
      invariant saved == SaveCount(items[..i], marshal, saveFails)
      invariant db.State() == SaveAll(t0, items[..i], marshal, sha256, saveFails)
    {
      var item := items[i];
      assert items[..i + 1][..i] == items[..i];
      var id := GenerateEntryID(item, sha256);
      var json := marshal(item);
      if json.Some? {
        var err := db.SaveEntry(id, json.value, saveFails(i));
        if err.None? {
          saved := saved + 1;
        }
      }
      i := i + 1;
    }
    assert items[..i] == items;
  }
}
