/**
 * Post rendering (internal/template/renderer.go): the truncate template function,
 * counted in runes, and Render's decode/execute/limit-check sequence. A Dafny
 * char is a Unicode scalar value, so a string here is a rune sequence. JSON
 * decoding and html/template execution are parameters of the renderer.
 */
module Template {
  import opened Wrappers
  import opened Database
  import opened Feed

  /** The dynamic type of truncate's maxLen argument. */
  datatype LimitArg = IntArg(i: int) | Int64Arg(i64: int) | OtherArg

  function Max(a: int, b: int): int {
    if a >= b then a else b
  }

  /**
   * truncate with an integer limit: "" for a non-positive limit, s when it fits,
   * else its first limit runes, with the last three replaced by "..." when limit > 3.
   */
  function TruncateTo(s: string, limit: int): (r: string)
    ensures |r| <= Max(limit, 0)
    ensures limit <= 0 ==> r == ""
    ensures 0 < limit && |s| <= limit ==> r == s
    ensures 0 < limit <= 3 && |s| > limit ==> r == s[..limit]
    ensures 3 < limit < |s| ==> |r| == limit && r[..limit - 3] == s[..limit - 3] && r[limit - 3..] == "..."
  {
    if limit <= 0 then ""
    else if |s| <= limit then s
    else if limit <= 3 then s[..limit]
    else s[..limit - 3] + "..."
  }

  /** truncate(s, maxLen): integers of either width set the limit; any other type leaves s unchanged. */
  function Truncate(s: string, maxLen: LimitArg): (r: string)
    ensures maxLen.OtherArg? ==> r == s
    ensures maxLen.IntArg? ==> r == TruncateTo(s, maxLen.i)
    ensures maxLen.Int64Arg? ==> r == TruncateTo(s, maxLen.i64)
  {
    match maxLen
    case IntArg(i) => TruncateTo(s, i)
    case Int64Arg(i) => TruncateTo(s, i)
    case OtherArg => s
  }

  /** Truncating twice with the same limit is truncating once. */
  lemma TruncateIdempotent(s: string, limit: int)
    ensures TruncateTo(TruncateTo(s, limit), limit) == TruncateTo(s, limit)
  {
  }

  /** The result is always s itself or built from a prefix of s. */
  lemma TruncateKeepsPrefix(s: string, limit: int)
    ensures var r := TruncateTo(s, limit);
      r == s || r <= s || (r[..|r| - 3] <= s && r[|r| - 3..] == "...")
  {
  }

  /**
   * The rows of the repository's truncate test table, and the last one again
   * through the type switch: an int or int64 limit truncates, any other leaves s.
   */
  lemma TruncateTestTable()
    ensures TruncateTo("short", 10) == "short"
    ensures TruncateTo("1234567890", 10) == "1234567890"
    ensures TruncateTo("", 10) == ""
    ensures TruncateTo("test", 0) == ""
    ensures TruncateTo("test", 1) == "t"
    ensures TruncateTo("test", 2) == "te"
    ensures TruncateTo("test", 3) == "tes"
    ensures TruncateTo("test string", 4) == "t..."
    ensures Truncate("test string", IntArg(4)) == Truncate("test string", Int64Arg(4)) == "t..."
    ensures Truncate("test string", OtherArg) == "test string"
  {
    assert "test"[..1] == "t";
    assert "test"[..2] == "te";
    assert "test"[..3] == "tes";
    assert "test string"[..1] == "t";
  }

  /** A string longer than a limit above 3 keeps limit - 3 runes and gains "...". */
  lemma TruncateLongString(head: string, tail: string, limit: int)
    requires limit > 3 && |head| == limit - 3 && |tail| > 3
    ensures TruncateTo(head + tail, limit) == head + "..."
  {
    assert (head + tail)[..limit - 3] == head;
  }

  /** The long-string row of the same table, whose input is LongHead + LongTail. */
  const LongHead := "this is a very lo"
  const LongTail := "ng string that should be truncated"

  lemma TruncateLongRow()
    ensures |LongHead + LongTail| == 51
    ensures TruncateTo(LongHead + LongTail, 20) == "this is a very lo..."
  {
    TruncateLongString(LongHead, LongTail, 20);
  }

  /** Length is counted in runes: multi-byte characters and emoji count as one each. */
  lemma TruncateCountsRunes()
    ensures TruncateTo("Hello \U{4E16}\U{754C}! This is a test", 15) == "Hello \U{4E16}\U{754C}! Th..."
    ensures TruncateTo("Hello \U{1F600} \U{1F603} \U{1F604} \U{1F601} \U{1F606} \U{1F605}", 15)
         == "Hello \U{1F600} \U{1F603} \U{1F604} ..."
  {
    assert "Hello \U{4E16}\U{754C}! This is a test"[..12] == "Hello \U{4E16}\U{754C}! Th";
    assert "Hello \U{1F600} \U{1F603} \U{1F604} \U{1F601} \U{1F606} \U{1F605}"[..12]
        == "Hello \U{1F600} \U{1F603} \U{1F604} ";
  }

  // ---------------------------------------------------------------------------
  // Render
  // ---------------------------------------------------------------------------

  /**
   * A parsed template and its character limit; both are fixed when the renderer
   * is built. decode stands for json.Unmarshal into a feed item, execute for
   * running the template on it.
   */
  datatype Renderer = Renderer(decode: Blob -> Option<Item>, execute: Item -> Option<string>, characterLimit: int)

  datatype RenderError = DecodeFailed | ExecuteFailed

  /** The rendered text, and whether the over-limit warning was logged. */
  datatype Rendered = Rendered(text: string, overLimit: bool)

  /**
   * Render: an undecodable entry or a failing template is an error; otherwise the
   * text is returned whatever its length, with a warning when it has more runes
   * than the limit.
   */
  function Render(r: Renderer, entryJSON: Blob): (res: Result<Rendered, RenderError>)
    ensures r.decode(entryJSON).None? ==> res == Failure(DecodeFailed)
    ensures r.decode(entryJSON).Some? && r.execute(r.decode(entryJSON).value).None? ==> res == Failure(ExecuteFailed)
    ensures res.Success? <==> r.decode(entryJSON).Some? && r.execute(r.decode(entryJSON).value).Some?
    ensures res.Success? ==> res.value.text == r.execute(r.decode(entryJSON).value).value
    ensures res.Success? ==> (res.value.overLimit <==> |res.value.text| > r.characterLimit)
  {
    match r.decode(entryJSON)
    case None => Failure(DecodeFailed)
    case Some(item) =>
      match r.execute(item)
      case None => Failure(ExecuteFailed)
      case Some(text) => Success(Rendered(text, |text| > r.characterLimit))
  }

  /** The character limit never turns a success into an error nor changes the text. */
  lemma LimitIsAdvisory(r: Renderer, limit: int, entryJSON: Blob)
    ensures var a := Render(r, entryJSON);
      var b := Render(r.(characterLimit := limit), entryJSON);
      && (a.Success? <==> b.Success?)
      && (a.Success? ==> a.value.text == b.value.text)
      && (a.Failure? ==> a.error == b.error)
  {
  }
}
