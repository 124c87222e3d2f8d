/** src-tauri/src/search.rs: conversion between char and byte offsets of a
    UTF-8 string, the highlighted snippet around the first case-insensitive
    match, and the assembly of result records from the stored documents the
    full-text engine returns. A string is a sequence of chars, each taking
    one to four bytes in UTF-8. */
module Search {
  import opened Wrappers
  import opened Strings
  import opened Types

  /** The number of bytes UTF-8 uses for a char. */
  function Utf8Width(c: char): (w: nat)
    ensures 1 <= w <= 4
  {
    if c as int < 0x80 then 1 else if c as int < 0x800 then 2 else if c as int < 0x10000 then 3 else 4
  }

  /** `s.len()`: the length in bytes. */
  function ByteLen(s: string): (n: nat)
    ensures n >= |s|
  {
    if s == [] then 0 else Utf8Width(s[0]) + ByteLen(s[1..])
  }

  lemma {:induction false} ByteLenConcat(a: string, b: string)
    ensures ByteLen(a + b) == ByteLen(a) + ByteLen(b)
  {
    if a == [] {
      assert a + b == b;
    } else {
      assert (a + b)[1..] == a[1..] + b;
      ByteLenConcat(a[1..], b);
    }
  }

  /** A longer prefix takes more bytes, and only a longer prefix does. */
  lemma PrefixBytesOrdered(s: string, i: int, j: int)
    requires 0 <= i <= |s| && 0 <= j <= |s|
    ensures i <= j <==> ByteLen(s[..i]) <= ByteLen(s[..j])
  {
    if i <= j {
      assert s[..j] == s[..i] + s[i..j];
      ByteLenConcat(s[..i], s[i..j]);
    } else {
      assert s[..i] == s[..j] + s[j..i];
      ByteLenConcat(s[..j], s[j..i]);
    }
  }

  /** b is the byte offset of a char boundary. */
  predicate IsBoundary(s: string, b: int) {
    exists k :: 0 <= k <= |s| && ByteLen(s[..k]) == b
  }

  /** The number of whole chars that fit in the first b bytes. */
  function CharsWithin(s: string, b: int): (n: nat)
    ensures n <= |s|
  {
    if s == [] || b < Utf8Width(s[0]) then 0 else 1 + CharsWithin(s[1..], b - Utf8Width(s[0]))
  }

  lemma {:induction false} CharsWithinPrefix(s: string, k: nat)
    requires k <= |s|
    ensures CharsWithin(s, ByteLen(s[..k])) == k
  {
    if k == 0 {
      assert s[..k] == [];
    } else {
      assert s[..k][0] == s[0] && s[..k][1..] == s[1..][..k - 1];
      CharsWithinPrefix(s[1..], k - 1);
    }
  }

  lemma BoundaryChars(s: string, b: int)
    requires IsBoundary(s, b)
    ensures ByteLen(s[..CharsWithin(s, b)]) == b
  {
    var k :| 0 <= k <= |s| && ByteLen(s[..k]) == b;
    CharsWithinPrefix(s, k);
  }

  /** byte_to_char_idx: `s[..b].chars().count()`; slicing off a char boundary
      panics, so b must be one. */
  function ByteToCharIdx(s: string, b: int): (c: nat)
    requires IsBoundary(s, b)
    ensures c <= |s| && ByteLen(s[..c]) == b
  {
    BoundaryChars(s, b);
    CharsWithin(s, b)
  }

  /** What char_to_byte_idx computes: the byte offset of char c, or the byte
      length once c reaches the char count. */
  function ByteOffset(s: string, c: nat): (b: nat)
    ensures c >= |s| ==> b == ByteLen(s)
    ensures IsBoundary(s, b)
  {
    if c >= |s| then assert s[..|s|] == s; ByteLen(s) else ByteLen(s[..c])
  }

  /** The conversions are inverse at char boundaries, starting from chars. */
  lemma CharByteChar(s: string, c: nat)
    requires c <= |s|
    ensures ByteToCharIdx(s, ByteOffset(s, c)) == c
  {
    assert s[..|s|] == s;
    CharsWithinPrefix(s, c);
  }

  /** The conversions are inverse at char boundaries, starting from bytes. */
  lemma ByteCharByte(s: string, b: int)
    requires IsBoundary(s, b)
    ensures ByteOffset(s, ByteToCharIdx(s, b)) == b
  {
    assert s[..|s|] == s;
  }

  /** char_to_byte_idx: walks the chars counting them, and returns the byte
      offset of the one whose number is c; past the end it returns s.len(). */
  method CharToByteIdx(s: string, c: nat) returns (b: nat)
    ensures b == ByteOffset(s, c)
  {
    var count := 0;
    var offset := 0;
    while count < |s|
      invariant 0 <= count <= |s| && count <= c
      invariant offset == ByteLen(s[..count])
    {
      if count == c {
        return offset;
      }
      assert s[..count + 1] == s[..count] + [s[count]];
      ByteLenConcat(s[..count], [s[count]]);
      offset := offset + Utf8Width(s[count]);
      count := count + 1;
    }
    assert s[..|s|] == s;
    b := offset;
  }

  /** `&s[b1..b2]` between two char boundaries. */
  function ByteSlice(s: string, b1: int, b2: int): string
    requires IsBoundary(s, b1) && IsBoundary(s, b2) && b1 <= b2
  {
    PrefixBytesOrdered(s, ByteToCharIdx(s, b1), ByteToCharIdx(s, b2));
    s[ByteToCharIdx(s, b1)..ByteToCharIdx(s, b2)]
  }

  /** Slicing between the byte offsets of chars i and j is slicing between the chars. */
  lemma SliceAt(s: string, i: nat, j: nat)
    requires i <= j <= |s|
    ensures ByteOffset(s, i) <= ByteOffset(s, j)
    ensures ByteSlice(s, ByteOffset(s, i), ByteOffset(s, j)) == s[i..j]
  {
    CharByteChar(s, i);
    CharByteChar(s, j);
    assert s[..|s|] == s;
    PrefixBytesOrdered(s, i, j);
  }

  /** Lower-casing keeps every char's width, so byte offsets in the
      lower-cased text are byte offsets in the text. */
  lemma {:induction false} LowerKeepsByteLen(s: string)
    ensures ByteLen(Lower(s)) == ByteLen(s)
  {
    if s != [] {
      assert Lower(s)[1..] == Lower(s[1..]);
      LowerKeepsByteLen(s[1..]);
    }
  }

  /** The first position at or after i where needle occurs in hay. */
  function FindFrom(hay: string, needle: string, i: nat): (r: Option<nat>)
    ensures r.Some? ==> i <= r.value && OccursAt(hay, needle, r.value)
                        && forall j :: i <= j < r.value ==> !OccursAt(hay, needle, j)
    ensures r.None? ==> forall j :: i <= j ==> !OccursAt(hay, needle, j)
    decreases |hay| - i
  {
    if i + |needle| > |hay| then None
    else if hay[i..i + |needle|] == needle then Some(i)
    else FindFrom(hay, needle, i + 1)
  }

  /** `hay.find(needle)`, as a char position: a UTF-8 match can only begin on
      a char boundary. */
  function FindFirst(hay: string, needle: string): (r: Option<nat>)
    ensures r.Some? ==> OccursAt(hay, needle, r.value) && forall j :: 0 <= j < r.value ==> !OccursAt(hay, needle, j)
    ensures r.None? ==> forall j :: !OccursAt(hay, needle, j)
  {
    FindFrom(hay, needle, 0)
  }

  const Mark := "<mark>"
  const EndMark := "</mark>"

  /** The marked window around a match of qlen chars at m: up to `pre`
      chars before it (saturating at the start) and up to `post` after it
      (clipped at the end). */
  function Window(text: string, m: nat, qlen: nat, pre: nat, post: nat): (r: string)
    requires m + qlen <= |text|
    ensures |r| <= pre + |Mark| + qlen + |EndMark| + post
    ensures Min(m, pre) + |Mark| + qlen + |EndMark| <= |r|
    ensures Mark + text[m..m + qlen] + EndMark <= r[Min(m, pre)..]
    ensures pre >= m ==> text[..m] <= r
  {
    var start := if m >= pre then m - pre else 0;
    var end := Min(|text|, m + qlen + post);
    text[start..m] + Mark + text[m..m + qlen] + EndMark + text[m + qlen..end]
  }

  /** What snippet_with_highlight returns, in char positions. */
  function Snippet(text: string, query: string, pre: nat, post: nat): (r: string)
    ensures text == [] || query == [] ==> r == []
  {
    if text == [] || query == [] then ""
    else
      match FindFirst(Lower(text), Lower(query))
      case Some(m) => Window(text, m, |query|, pre, post)
      case None => text[..Min(|text|, pre + post)]
  }

  /** With a match at m, the first case-insensitive one, the snippet is the
      text around it with the match wrapped in the markers: at most `pre`
      chars before and `post` after, as many as the text has (a and z are
      the window's ends), and without the markers it is one contiguous piece
      of the text. */
  lemma SnippetWithMatch(text: string, query: string, pre: nat, post: nat, m: nat) returns (a: nat, z: nat)
    requires text != [] && query != []
    requires FindFirst(Lower(text), Lower(query)) == Some(m)
    ensures m + |query| <= |text| && Lower(text[m..m + |query|]) == Lower(query)
    ensures forall j :: 0 <= j < m ==> !OccursAt(Lower(text), Lower(query), j)
    ensures a <= m && m + |query| <= z <= |text|
    ensures m - a == Min(m, pre) && z - (m + |query|) == Min(|text| - (m + |query|), post)
    ensures Snippet(text, query, pre, post) == text[a..m] + Mark + text[m..m + |query|] + EndMark + text[m + |query|..z]
    ensures text[a..m] + text[m..m + |query|] + text[m + |query|..z] == text[a..z]
  {
    assert OccursAt(Lower(text), Lower(query), m);
    assert Lower(text)[m..m + |query|] == Lower(text[m..m + |query|]);
    a := if m >= pre then m - pre else 0;
    z := Min(|text|, m + |query| + post);
    assert text[a..z] == text[a..m] + text[m..m + |query|] + text[m + |query|..z];
  }

  /** Without a match, the snippet is the text's first pre + post chars (or all of it). */
  lemma SnippetWithoutMatch(text: string, query: string, pre: nat, post: nat)
    requires text != [] && query != []
    requires forall j :: !OccursAt(Lower(text), Lower(query), j)
    ensures Snippet(text, query, pre, post) == text[..Min(|text|, pre + post)]
  {
  }

  /** The char offset of a match found in the lower-cased text. */
  lemma MatchCharOffset(text: string, m: nat)
    requires m <= |text|
    ensures IsBoundary(text, ByteLen(Lower(text)[..m]))
    ensures ByteToCharIdx(text, ByteLen(Lower(text)[..m])) == m
  {
    assert Lower(text)[..m] == Lower(text[..m]);
    LowerKeepsByteLen(text[..m]);
    CharsWithinPrefix(text, m);
  }

  /** `&text[bi..bj]` between the byte offsets of char positions i and j:
      the chars i to j. */
  method SliceChars(text: string, i: nat, j: nat, bi: nat, bj: nat) returns (r: string)
    requires i <= j <= |text|
    requires bi == ByteOffset(text, i) && bj == ByteOffset(text, j)
    ensures r == text[i..j]
  {
    SliceAt(text, i, j);
    r := ByteSlice(text, bi, bj);
  }

  /** The `out` built for a match: the window's ends and the match's ends
      are turned into byte offsets and the pieces between them pushed in order. */
  method MarkedWindow(text: string, posC: nat, qLenC: nat, pre: nat, post: nat) returns (out: string)
    requires posC + qLenC <= |text|
    ensures out == Window(text, posC, qLenC, pre, post)
  {
    var totalC := |text|;
    var startC := if posC >= pre then posC - pre else 0;
    var endC := Min(totalC, posC + qLenC + post);
    var startB := CharToByteIdx(text, startC);
    var matchStartB := CharToByteIdx(text, posC);
    var matchEndB := CharToByteIdx(text, posC + qLenC);
    var endB := CharToByteIdx(text, endC);
    var lead := SliceChars(text, startC, posC, startB, matchStartB);
    var matched := SliceChars(text, posC, posC + qLenC, matchStartB, matchEndB);
    var tail := SliceChars(text, posC + qLenC, endC, matchEndB, endB);
    out := "";
    out := out + lead;
    out := out + Mark;
    out := out + matched;
    out := out + EndMark;
    out := out + tail;
  }

  /** snippet_with_highlight: finds the match in the lower-cased text, turns
      its byte offset into a char offset, and builds the marked window; with
      no match it cuts the text after pre + post chars. */
  method SnippetWithHighlight(text: string, query: string, pre: nat, post: nat) returns (out: string)
    ensures out == Snippet(text, query, pre, post)
  {
    if |text| == 0 || |query| == 0 {
      return "";
    }
    var tLow := Lower(text);
    var qLow := Lower(query);
    var found := FindFirst(tLow, qLow);
    if found.Some? {
      var posB := ByteLen(tLow[..found.value]);
      MatchCharOffset(text, found.value);
      var posC := ByteToCharIdx(text, posB);
      out := MarkedWindow(text, posC, |query|, pre, post);
      return;
    }
    var takeC := Min(|text|, pre + post);
    var endB := CharToByteIdx(text, takeC);
    SliceAt(text, 0, takeC);
    assert text[..takeC] == text[0..takeC];
    out := ByteSlice(text, ByteOffset(text, 0), endB);
  }

  /** The highlight list of one result: one snippet with a 60-char lead and
      a 140-char tail, only for non-empty content and a non-empty snippet. */
  function Highlights(content: string, query: string): (hs: seq<string>)
    ensures |hs| <= 1
    ensures |hs| == 1 <==> content != [] && query != []
    ensures |hs| == 1 ==> hs[0] == Snippet(content, query, 60, 140)
  {
    if content == [] then []
    else
      var sn := Snippet(content, query, 60, 140);
      SnippetNonEmpty(content, query, 60, 140);
      if sn == [] then [] else [sn]
  }

  /** A snippet of a non-empty text for a non-empty query is never empty when
      the window is not empty. */
  lemma SnippetNonEmpty(text: string, query: string, pre: nat, post: nat)
    requires text != [] && pre + post > 0
    ensures Snippet(text, query, pre, post) == [] <==> query == []
  {
    if query != [] {
      var f := FindFirst(Lower(text), Lower(query));
      if f.Some? {
        var a, z := SnippetWithMatch(text, query, pre, post, f.value);
      }
    }
  }

  /** A stored document's fields; a field the document lacks is None. */
  datatype StoredDoc = StoredDoc(
    title: Option<string>,
    content: Option<string>,
    filePath: Option<string>,
    fileType: Option<string>,
    modifiedTime: Option<int>)

  /** The record built for one hit: the id is the file path, missing text
      fields are empty and a missing time is 0. */
  function ResultOf(d: StoredDoc, query: string): (r: SearchResult)
    ensures r.id == r.filePath == d.filePath.GetOr("")
    ensures r.content == d.content.GetOr("") && r.title == d.title.GetOr("")
    ensures r.fileType == d.fileType.GetOr("") && r.modifiedTime == d.modifiedTime.GetOr(0)
    ensures |r.highlights| <= 1 && (|r.highlights| == 1 <==> r.content != [] && query != [])
  {
    var content := d.content.GetOr("");
    var path := d.filePath.GetOr("");
    SearchResult(path, d.title.GetOr(""), content, path, d.fileType.GetOr(""), d.modifiedTime.GetOr(0), Highlights(content, query))
  }

  /** The results for a list of read documents, in hit order; the first read
      failure fails the whole search. */
  function Assemble(hits: seq<Result<StoredDoc, string>>, query: string): (r: Result<seq<SearchResult>, string>)
    ensures r.Ok? <==> forall i :: 0 <= i < |hits| ==> hits[i].Ok?
    ensures r.Ok? ==> |r.value| == |hits| && forall i :: 0 <= i < |hits| ==> r.value[i] == ResultOf(hits[i].value, query)
    decreases |hits|
  {
    if hits == [] then Ok([])
    else if hits[0].Err? then Err(hits[0].error)
    else match Assemble(hits[1..], query)
      case Ok(rest) => Ok([ResultOf(hits[0].value, query)] + rest)
      case Err(e) => Err(e)
  }

  /** A read error at i, after only successful reads, is the error the assembly fails with. */
  lemma {:induction false} AssembleFirstError(hits: seq<Result<StoredDoc, string>>, query: string, i: nat)
    requires i < |hits| && hits[i].Err? && forall j :: 0 <= j < i ==> hits[j].Ok?
    ensures Assemble(hits, query) == Err(hits[i].error)
  {
    if i > 0 {
      AssembleFirstError(hits[1..], query, i - 1);
    }
  }

  const DefaultLimit := 50

  /** What do_search_index returns. The engine is given the query and the limit
      and answers with the top hits (each a document read, or a read error)
      or an error. */
  function SearchSpec(indexExists: bool, query: string, limit: Option<nat>,
                      engine: (string, nat) -> Result<seq<Result<StoredDoc, string>>, string>): (r: Result<seq<SearchResult>, string>)
    ensures !indexExists ==> r == Ok([])
    ensures indexExists && engine(query, limit.GetOr(DefaultLimit)).Err? ==> r == Err(engine(query, limit.GetOr(DefaultLimit)).error)
    ensures indexExists && r.Ok? ==>
      && engine(query, limit.GetOr(DefaultLimit)).Ok?
      && var hits := engine(query, limit.GetOr(DefaultLimit)).value;
         |r.value| == |hits| && forall i :: 0 <= i < |hits| ==> hits[i].Ok? && r.value[i] == ResultOf(hits[i].value, query)
  {
    if !indexExists then Ok([])
    else match engine(query, limit.GetOr(DefaultLimit))
      case Err(e) => Err(e)
      case Ok(hits) => if hits == [] then Ok([]) else Assemble(hits, query)
  }

  /** No limit means a limit of 50. */
  lemma LimitDefaultsTo50(indexExists: bool, query: string,
                          engine: (string, nat) -> Result<seq<Result<StoredDoc, string>>, string>)
    ensures SearchSpec(indexExists, query, None, engine) == SearchSpec(indexExists, query, Some(50), engine)
  {
  }

  /** Every result of a successful search is one hit, in order, with id =
      file path and at most one highlight. */
  lemma SearchResultsAreHits(indexExists: bool, query: string, limit: Option<nat>,
                             engine: (string, nat) -> Result<seq<Result<StoredDoc, string>>, string>)
    requires SearchSpec(indexExists, query, limit, engine).Ok?
    ensures var rs := SearchSpec(indexExists, query, limit, engine).value;
      (!indexExists ==> rs == [])
      && forall i :: 0 <= i < |rs| ==> rs[i].id == rs[i].filePath && |rs[i].highlights| <= 1
  {
  }

  /** do_search_index: a missing index directory or an empty hit list gives
      no results; otherwise the documents are read one by one and a record is
      pushed for each, and a read error stops the search. */
  method DoSearchIndex(indexExists: bool, query: string, limit: Option<nat>,
                       engine: (string, nat) -> Result<seq<Result<StoredDoc, string>>, string>)
    returns (r: Result<seq<SearchResult>, string>)
    ensures r == SearchSpec(indexExists, query, limit, engine)
  {
    var lim := limit.GetOr(DefaultLimit);
    if !indexExists {
      return Ok([]);
    }
    var top := engine(query, lim);
    if top.Err? {
      return Err(top.error);
    }
    var hits := top.value;
    if |hits| == 0 {
      return Ok([]);
    }
    var results: seq<SearchResult> := [];
    var i := 0;
    while i < |hits|
      invariant 0 <= i <= |hits|
      invariant forall j :: 0 <= j < i ==> hits[j].Ok?
      invariant |results| == i && forall j :: 0 <= j < i ==> results[j] == ResultOf(hits[j].value, query)
    {
      if hits[i].Err? {
        AssembleFirstError(hits, query, i);
        return Err(hits[i].error);
      }
      var d := hits[i].value;
      var content := d.content.GetOr("");
      var highlights: seq<string> := [];
      if content != [] {
        var sn := SnippetWithHighlight(content, query, 60, 140);
        if sn != [] {
          highlights := highlights + [sn];
        }
      }
      var path := d.filePath.GetOr("");
      results := results + [SearchResult(path, d.title.GetOr(""), content, path, d.fileType.GetOr(""), d.modifiedTime.GetOr(0), highlights)];
      i := i + 1;
    }
    assert Assemble(hits, query).Ok?;
    assert Assemble(hits, query).value == results;
    return Ok(results);
  }
}
