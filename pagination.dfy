/** Cutting a stream of lines into message-sized pages (the string
  * paginators), and `aenumerate`. */
module Pagination {
  import opened Wrappers
  import Internal
  import Strings

  const DEFAULT_CHAR_LIMIT: int := 2000
  const DEFAULT_LINE_LIMIT: int := 25

  /** A wrapper string such as "```{}```" and its `str.format`, which is
    * left uninterpreted: the wrapper may hold "{}" once, several fields,
    * escaped braces or none at all. */
  datatype Wrapper = Wrapper(text: string, format: string -> string)
  {
    /** `len(wrapper)`. */
    function Length(): nat
    {
      |text|
    }
  }

  /** `if wrapper:` — an absent or empty wrapper string wraps nothing. */
  predicate Wraps(wrapper: Option<Wrapper>)
  {
    wrapper.Some? && wrapper.value.text != []
  }

  /** The limit pages are cut to: a wrapper takes away its length plus two. */
  function EffectiveLimit(charLimit: int, wrapper: Option<Wrapper>): (r: int)
    ensures Wraps(wrapper) ==> r == charLimit - |wrapper.value.text| - 2
    ensures !Wraps(wrapper) ==> r == charLimit
  {
    if Wraps(wrapper) then charLimit - (wrapper.value.Length() + 2) else charLimit
  }

  /** What a paginator yields before wrapping: a page of lines (joined
    * with newlines) or one piece of a line too long for a page. */
  datatype Emitted = Page(lines: seq<string>) | Piece(text: string)

  /** A page is its lines joined with one newline each, a piece is its
    * text; both are then formatted into the wrapper when it wraps. */
  function Render(e: Emitted, wrapper: Option<Wrapper>): (r: string)
    ensures !Wraps(wrapper) && e.Piece? ==> r == e.text
    ensures !Wraps(wrapper) && e.Page? && e.lines != [] ==> |r| == Strings.TotalLength(e.lines) + |e.lines| - 1
    ensures !Wraps(wrapper) && e.Page? && e.lines == [] ==> r == ""
  {
    var text := if e.Page? then Strings.Join("\n", e.lines) else e.text;
    if Wraps(wrapper) then wrapper.value.format(text) else text
  }

  function RenderAll(es: seq<Emitted>, wrapper: Option<Wrapper>): (r: seq<string>)
    ensures |r| == |es| && forall i :: 0 <= i < |es| ==> r[i] == Render(es[i], wrapper)
  {
    if es == [] then [] else [Render(es[0], wrapper)] + RenderAll(es[1..], wrapper)
  }

  function Pieces(texts: seq<string>): seq<Emitted>
  {
    if texts == [] then [] else [Piece(texts[0])] + Pieces(texts[1..])
  }

  /** The error `textwrap` raises for a width below 1. */
  function InvalidWidth(width: int): Error
  {
    ValueError("invalid width " + Strings.IntRepr(width) + " (must be > 0)")
  }

  /** `textwrap.wrap(line, width=limit, ...)` for a line without
    * whitespace: pieces of `width` characters, the last possibly shorter;
    * together they are the line. */
  function Chunks(line: string, width: nat): (r: seq<string>)
    requires width > 0
    ensures Strings.Concat(r) == line
    ensures forall i :: 0 <= i < |r| ==> 0 < |r[i]| <= width
    ensures forall i :: 0 <= i < |r| - 1 ==> |r[i]| == width
    ensures |r| > 0 <==> |line| > 0
    decreases |line|
  {
    if |line| == 0 then []
    else if |line| <= width then [line]
    else
      var rest := Chunks(line[width..], width);
      assert ([line[..width]] + rest)[1..] == rest;
      [line[..width]] + rest
  }

  /** The loop's state: what was yielded so far, the page being filled and
    * its `page_size` (the summed length of its lines). */
  datatype PageState = PageState(emitted: seq<Emitted>, page: seq<string>, size: int)

  const START: PageState := PageState([], [], 0)

  /** The first half of a turn: a page that is full (by lines, or by size
    * for this line) is yielded and a new one started. */
  function Flush(s: PageState, line: string, limit: int, lineLimit: int): (r: PageState)
    ensures r == s || (r.emitted == s.emitted + [Page(s.page)] && r.page == [] && r.size == 0)
    ensures |s.page| >= lineLimit ==> r.page == [] && r.size == 0
    ensures |s.page| > 0 && s.size + |line| > limit ==> r.page == [] && r.size == 0
  {
    if |s.page| >= lineLimit || (|s.page| > 0 && s.size + |line| > limit)
    then PageState(s.emitted + [Page(s.page)], [], 0) else s
  }

  /** The second half: a line shorter than the limit joins the page; a
    * longer one is cut into pieces, each yielded on its own except a short
    * last piece, which joins the page. Cutting needs a limit of at least 1. */
  function Place(t: PageState, line: string, limit: int): (r: (PageState, Option<Error>))
    ensures r.1.Some? <==> limit <= 0 && |line| >= limit
    ensures r.1.Some? ==> r.0 == t && r.1 == Some(InvalidWidth(limit))
    ensures t.emitted <= r.0.emitted
  {
    if |line| < limit then (PageState(t.emitted, t.page + [line], t.size + |line|), None)
    else if limit <= 0 then (t, Some(InvalidWidth(limit)))
    else
      var subs := Chunks(line, limit);
      var last := subs[|subs| - 1];
      if |last| < limit then (PageState(t.emitted + Pieces(subs[..|subs| - 1]), t.page + [last], t.size + |last|), None)
      else (PageState(t.emitted + Pieces(subs), t.page, t.size), None)
  }

  /** One turn of the loop. */
  function AddLine(s: PageState, line: string, limit: int, lineLimit: int): (r: (PageState, Option<Error>))
    ensures r.1.Some? <==> limit <= 0 && |line| >= limit
    ensures r.1.Some? ==> r.1 == Some(InvalidWidth(limit))
    ensures s.emitted <= r.0.emitted
  {
    Place(Flush(s, line, limit, lineLimit), line, limit)
  }

  /** What is yielded for the remaining lines: pages and pieces, a final
    * non-empty page, or an error that stops the loop. */
  datatype PageRun = PageRun(emitted: seq<Emitted>, error: Option<Error>)

  function Run(s: PageState, lines: seq<string>, limit: int, lineLimit: int): (r: PageRun)
    ensures s.emitted <= r.emitted
    ensures r.error.Some? ==> limit <= 0 && r.error == Some(InvalidWidth(limit))
    ensures limit > 0 ==> r.error.None?
    decreases |lines|
  {
    if lines == [] then PageRun(s.emitted + (if |s.page| > 0 then [Page(s.page)] else []), None)
    else
      var (t, err) := AddLine(s, lines[0], limit, lineLimit);
      if err.Some? then PageRun(t.emitted, err) else Run(t, lines[1..], limit, lineLimit)
  }

  /** The pages the string paginators yield, and the error that ends them early. */
  function Paginate(lines: seq<string>, charLimit: int, lineLimit: int, wrapper: Option<Wrapper>)
    : (r: (seq<string>, Option<Error>))
    ensures r.1.Some? ==> EffectiveLimit(charLimit, wrapper) <= 0
                          && r.1 == Some(InvalidWidth(EffectiveLimit(charLimit, wrapper)))
    ensures EffectiveLimit(charLimit, wrapper) > 0 ==> r.1.None?
  {
    var run := Run(START, lines, EffectiveLimit(charLimit, wrapper), lineLimit);
    (RenderAll(run.emitted, wrapper), run.error)
  }

  /** No lines, no pages. */
  lemma EmptyInputYieldsNothing(charLimit: int, lineLimit: int, wrapper: Option<Wrapper>)
    ensures Paginate([], charLimit, lineLimit, wrapper) == ([], None)
  {
  }

  // ---------------------------------------------------------------------
  // Page limits

  /** A yielded page has between 1 and `lineLimit` lines whose summed
    * length is at most the limit; a piece is exactly the limit long. */
  predicate WithinLimits(e: Emitted, limit: int, lineLimit: int)
  {
    match e
    case Page(p) => 1 <= |p| <= lineLimit && Strings.TotalLength(p) <= limit
    case Piece(t) => |t| == limit
  }

  ghost predicate StateWithinLimits(s: PageState, limit: int, lineLimit: int)
  {
    (forall i :: 0 <= i < |s.emitted| ==> WithinLimits(s.emitted[i], limit, lineLimit)) &&
    |s.page| <= lineLimit && s.size == Strings.TotalLength(s.page) && s.size <= limit
  }

  lemma FlushWithinLimits(s: PageState, line: string, limit: int, lineLimit: int)
    requires StateWithinLimits(s, limit, lineLimit)
    requires lineLimit >= 1
    ensures var t := Flush(s, line, limit, lineLimit);
      StateWithinLimits(t, limit, lineLimit) && |t.page| < lineLimit &&
      (|t.page| > 0 ==> t.size + |line| <= limit)
  {
  }

  lemma PlaceWithinLimits(t: PageState, line: string, limit: int, lineLimit: int)
    requires limit >= 1
    requires StateWithinLimits(t, limit, lineLimit) && |t.page| < lineLimit
    requires |t.page| > 0 ==> t.size + |line| <= limit
    ensures var (u, err) := Place(t, line, limit);
      err.None? && StateWithinLimits(u, limit, lineLimit)
  {
    if |line| < limit {
      Strings.TotalLengthAppend(t.page, [line]);
      assert Strings.TotalLength([line]) == |line| by { assert [line][1..] == []; }
    } else {
      assert t.size == 0;
      LongPlaceWithinLimits(t, line, limit, lineLimit);
    }
  }

  /** A line at least the limit long meets a page of total length 0: its
    * full pieces are yielded and a short last piece joins the page. */
  lemma LongPlaceWithinLimits(t: PageState, line: string, limit: int, lineLimit: int)
    requires 1 <= limit <= |line|
    requires StateWithinLimits(t, limit, lineLimit) && |t.page| < lineLimit && t.size == 0
    ensures var (u, err) := Place(t, line, limit);
      err.None? && StateWithinLimits(u, limit, lineLimit)
  {
    var subs := Chunks(line, limit);
    var last := subs[|subs| - 1];
    if |last| < limit {
      var full := subs[..|subs| - 1];
      PiecesWithinLimits(full, limit, lineLimit);
      AppendWithinLimits(t.emitted, Pieces(full), limit, lineLimit);
      Strings.TotalLengthAppend(t.page, [last]);
      assert Strings.TotalLength([last]) == |last| by { assert [last][1..] == []; }
    } else {
      PiecesWithinLimits(subs, limit, lineLimit);
      AppendWithinLimits(t.emitted, Pieces(subs), limit, lineLimit);
    }
  }

  lemma AppendWithinLimits(a: seq<Emitted>, b: seq<Emitted>, limit: int, lineLimit: int)
    requires forall i :: 0 <= i < |a| ==> WithinLimits(a[i], limit, lineLimit)
    requires forall i :: 0 <= i < |b| ==> WithinLimits(b[i], limit, lineLimit)
    ensures forall i :: 0 <= i < |a + b| ==> WithinLimits((a + b)[i], limit, lineLimit)
  {
  }

  lemma {:induction false} PiecesWithinLimits(texts: seq<string>, limit: int, lineLimit: int)
    requires forall i :: 0 <= i < |texts| ==> |texts[i]| == limit
    ensures forall i :: 0 <= i < |Pieces(texts)| ==> WithinLimits(Pieces(texts)[i], limit, lineLimit)
    ensures |Pieces(texts)| == |texts|
  {
    if texts != [] {
      PiecesWithinLimits(texts[1..], limit, lineLimit);
    }
  }

  lemma {:induction false} RunWithinLimits(s: PageState, lines: seq<string>, limit: int, lineLimit: int)
    requires limit >= 1 && lineLimit >= 1
    requires StateWithinLimits(s, limit, lineLimit)
    ensures var run := Run(s, lines, limit, lineLimit);
      run.error.None? && forall i :: 0 <= i < |run.emitted| ==> WithinLimits(run.emitted[i], limit, lineLimit)
    decreases |lines|
  {
    if lines != [] {
      var t := Flush(s, lines[0], limit, lineLimit);
      FlushWithinLimits(s, lines[0], limit, lineLimit);
      PlaceWithinLimits(t, lines[0], limit, lineLimit);
      var (u, err) := Place(t, lines[0], limit);
      RunWithinLimits(u, lines[1..], limit, lineLimit);
    }
  }

  /** With a line limit and an effective char limit of at least 1, the
    * paginators never fail, every page has between 1 and `lineLimit`
    * lines whose summed length (newlines not counted) is within the
    * limit, and every piece of a long line is exactly the limit long. */
  lemma PagesWithinLimits(lines: seq<string>, limit: int, lineLimit: int)
    requires limit >= 1 && lineLimit >= 1
    ensures var run := Run(START, lines, limit, lineLimit);
      run.error.None? && forall i :: 0 <= i < |run.emitted| ==> WithinLimits(run.emitted[i], limit, lineLimit)
  {
    RunWithinLimits(START, lines, limit, lineLimit);
  }

  // ---------------------------------------------------------------------
  // Content

  /** The lines of what was yielded, in order. */
  function Flatten(es: seq<Emitted>): seq<string>
  {
    if es == [] then []
    else (if es[0].Page? then es[0].lines else [es[0].text]) + Flatten(es[1..])
  }

  lemma {:induction false} FlattenAppend(a: seq<Emitted>, b: seq<Emitted>)
    ensures Flatten(a + b) == Flatten(a) + Flatten(b)
  {
    if a == [] {
      assert a + b == b;
    } else {
      assert (a + b)[1..] == a[1..] + b;
      FlattenAppend(a[1..], b);
    }
  }

  lemma {:induction false} PiecesAppend(a: seq<string>, b: seq<string>)
    ensures Pieces(a + b) == Pieces(a) + Pieces(b)
  {
    if a == [] {
      assert a + b == b;
    } else {
      assert (a + b)[1..] == a[1..] + b;
      PiecesAppend(a[1..], b);
    }
  }

  lemma {:induction false} FlattenPieces(texts: seq<string>)
    ensures Flatten(Pieces(texts)) == texts
  {
    if texts != [] {
      assert Pieces(texts)[1..] == Pieces(texts[1..]);
      FlattenPieces(texts[1..]);
    }
  }

  /** A line as it comes out: whole when shorter than the limit, else as its pieces. */
  function Expanded(line: string, limit: int): seq<string>
    requires limit >= 1
  {
    if |line| >= limit then Chunks(line, limit) else [line]
  }

  /** The input with every line at least the limit long replaced by its pieces. */
  function Expand(lines: seq<string>, limit: int): seq<string>
    requires limit >= 1
  {
    if lines == [] then [] else Expanded(lines[0], limit) + Expand(lines[1..], limit)
  }

  ghost predicate StateContent(s: PageState)
  {
    (forall i :: 0 <= i < |s.page| ==> |s.page[i]| > 0) && s.size == Strings.TotalLength(s.page)
  }

  lemma TotalLengthPositive(p: seq<string>)
    requires forall i :: 0 <= i < |p| ==> |p[i]| > 0
    ensures p == [] || Strings.TotalLength(p) > 0
  {
  }

  lemma FlushKeepsContent(s: PageState, line: string, limit: int, lineLimit: int)
    requires StateContent(s)
    ensures var t := Flush(s, line, limit, lineLimit);
      StateContent(t) && Flatten(t.emitted) + t.page == Flatten(s.emitted) + s.page &&
      (|t.page| > 0 ==> t.size + |line| <= limit)
  {
    var t := Flush(s, line, limit, lineLimit);
    if t != s {
      FlattenAppend(s.emitted, [Page(s.page)]);
      assert Flatten([Page(s.page)]) == s.page;
    }
  }

  lemma PlaceKeepsContent(t: PageState, line: string, limit: int)
    requires limit >= 1 && |line| > 0 && StateContent(t)
    requires |t.page| > 0 ==> t.size + |line| <= limit
    ensures var (u, err) := Place(t, line, limit);
      err.None? && StateContent(u) &&
      Flatten(u.emitted) + u.page == Flatten(t.emitted) + t.page + Expanded(line, limit)
  {
    if |line| < limit {
      Strings.TotalLengthAppend(t.page, [line]);
      assert Strings.TotalLength([line]) == |line| by { assert [line][1..] == []; }
    } else {
      TotalLengthPositive(t.page);
      LongLineKeepsContent(t, line, limit);
    }
  }

  /** A line at least the limit long only ever meets an empty page. */
  lemma LongLineKeepsContent(t: PageState, line: string, limit: int)
    requires limit >= 1 && |line| >= limit && StateContent(t) && t.page == []
    ensures var (u, err) := Place(t, line, limit);
      err.None? && StateContent(u) &&
      Flatten(u.emitted) + u.page == Flatten(t.emitted) + Chunks(line, limit)
  {
    var subs := Chunks(line, limit);
    if |subs[|subs| - 1]| < limit {
      ShortLastPieceKeepsContent(t.emitted, subs, limit);
    } else {
      FlattenAppend(t.emitted, Pieces(subs));
      FlattenPieces(subs);
    }
  }

  lemma ShortLastPieceKeepsContent(emitted: seq<Emitted>, subs: seq<string>, limit: int)
    requires |subs| > 0 && |subs[|subs| - 1]| > 0
    ensures var last := subs[|subs| - 1];
      Flatten(emitted + Pieces(subs[..|subs| - 1])) + [last] == Flatten(emitted) + subs &&
      Strings.TotalLength([last]) == |last|
  {
    var last := subs[|subs| - 1];
    FlattenAppend(emitted, Pieces(subs[..|subs| - 1]));
    FlattenPieces(subs[..|subs| - 1]);
    assert subs[..|subs| - 1] + [last] == subs;
    assert [last][1..] == [];
  }

  /** One line adds exactly its expansion to what is yielded or pending. */
  lemma AddLineKeepsContent(s: PageState, line: string, limit: int, lineLimit: int)
    requires limit >= 1 && |line| > 0 && StateContent(s)
    ensures var (u, err) := AddLine(s, line, limit, lineLimit);
      err.None? && StateContent(u) &&
      Flatten(u.emitted) + u.page == Flatten(s.emitted) + s.page + Expanded(line, limit)
  {
    FlushKeepsContent(s, line, limit, lineLimit);
    PlaceKeepsContent(Flush(s, line, limit, lineLimit), line, limit);
  }

  /** At the end the pending page is yielded when it is not empty. */
  lemma RunEndKeepsContent(s: PageState, limit: int, lineLimit: int)
    ensures var run := Run(s, [], limit, lineLimit);
      run.error.None? && Flatten(run.emitted) == Flatten(s.emitted) + s.page
  {
    FlattenAppend(s.emitted, if |s.page| > 0 then [Page(s.page)] else []);
    assert Flatten([Page(s.page)]) == s.page;
  }

  /** The first line's step, as `RunKeepsContent` needs it. */
  lemma RunFirstLine(s: PageState, lines: seq<string>, limit: int, lineLimit: int)
    requires limit >= 1 && StateContent(s) && |lines| > 0
    requires forall i :: 0 <= i < |lines| ==> |lines[i]| > 0
    ensures var u := AddLine(s, lines[0], limit, lineLimit).0;
      StateContent(u)
      && Run(s, lines, limit, lineLimit) == Run(u, lines[1..], limit, lineLimit)
      && Flatten(u.emitted) + u.page == Flatten(s.emitted) + s.page + Expanded(lines[0], limit)
      && Expand(lines, limit) == Expanded(lines[0], limit) + Expand(lines[1..], limit)
      && forall i :: 0 <= i < |lines[1..]| ==> |lines[1..][i]| > 0
  {
    AddLineKeepsContent(s, lines[0], limit, lineLimit);
  }

  lemma {:induction false} RunKeepsContent(s: PageState, lines: seq<string>, limit: int, lineLimit: int)
    requires limit >= 1 && StateContent(s)
    requires forall i :: 0 <= i < |lines| ==> |lines[i]| > 0
    ensures var run := Run(s, lines, limit, lineLimit);
      run.error.None? && Flatten(run.emitted) == Flatten(s.emitted) + s.page + Expand(lines, limit)
    decreases |lines|, 1
  {
    if lines == [] {
      RunEndKeepsContent(s, limit, lineLimit);
    } else {
      RunConsKeepsContent(s, lines, limit, lineLimit);
    }
  }

  lemma {:induction false} RunConsKeepsContent(s: PageState, lines: seq<string>, limit: int, lineLimit: int)
    requires limit >= 1 && StateContent(s) && |lines| > 0
    requires forall i :: 0 <= i < |lines| ==> |lines[i]| > 0
    ensures var run := Run(s, lines, limit, lineLimit);
      run.error.None? && Flatten(run.emitted) == Flatten(s.emitted) + s.page + Expand(lines, limit)
    decreases |lines|, 0
  {
    RunFirstLine(s, lines, limit, lineLimit);
    var u := AddLine(s, lines[0], limit, lineLimit).0;
    RunKeepsContent(u, lines[1..], limit, lineLimit);
    var run := Run(u, lines[1..], limit, lineLimit);
    var start, first, rest := Flatten(s.emitted) + s.page, Expanded(lines[0], limit), Expand(lines[1..], limit);
    calc {
      Flatten(run.emitted);
      (start + first) + rest;
      start + (first + rest);
    }
  }

  /** With an effective limit of at least 1 and no empty line, what is
    * yielded is exactly the input in order, each line shorter than the
    * limit whole and each longer line as its consecutive pieces. */
  lemma LinesKeptInOrder(lines: seq<string>, limit: int, lineLimit: int)
    requires limit >= 1
    requires forall i :: 0 <= i < |lines| ==> |lines[i]| > 0
    ensures var run := Run(START, lines, limit, lineLimit);
      run.error.None? && Flatten(run.emitted) == Expand(lines, limit)
  {
    RunKeepsContent(START, lines, limit, lineLimit);
    var run := Run(START, lines, limit, lineLimit);
    assert Flatten(START.emitted) + START.page == [];
  }

  /** Empty lines are where the order can break: a pending page of empty
    * lines is not yielded before a line of exactly the limit, which is
    * then yielded ahead of it. */
  lemma EmptyLineCanTrailLongLine()
    ensures Run(START, ["", "abc"], 3, 25).emitted == [Piece("abc"), Page([""])]
  {
    var lines := ["", "abc"];
    var s1 := PageState([], [""], 0);
    assert Flush(START, lines[0], 3, 25) == START;
    assert START.page + [""] == [""];
    assert Place(START, lines[0], 3) == (s1, None);
    assert AddLine(START, lines[0], 3, 25) == (s1, None);
    assert Chunks("abc", 3) == ["abc"];
    assert Pieces(["abc"]) == [Piece("abc")];
    var s2 := PageState([Piece("abc")], [""], 0);
    assert |lines[1]| == 3;
    assert Flush(s1, lines[1], 3, 25) == s1;
    assert s1.emitted + [Piece("abc")] == [Piece("abc")];
    assert Place(s1, lines[1], 3) == (s2, None);
    assert AddLine(s1, lines[1], 3, 25) == (s2, None);
    assert lines[1..][1..] == [];
    assert Run(s2, [], 3, 25).emitted == [Piece("abc"), Page([""])];
  }

  // ---------------------------------------------------------------------
  // The loops

  /** One turn of both loops: flush the page when it is full, then place
    * the line, cutting it into pieces when it is at least the limit long. */
  method StepLine(emitted: seq<Emitted>, page: seq<string>, pageSize: int, line: string, limit: int, lineLimit: int)
    returns (emitted': seq<Emitted>, page': seq<string>, pageSize': int, err: Option<Error>)
    ensures AddLine(PageState(emitted, page, pageSize), line, limit, lineLimit) == (PageState(emitted', page', pageSize'), err)
  {
    emitted', page', pageSize' := emitted, page, pageSize;
    if |page'| >= lineLimit || (|page'| > 0 && pageSize' + |line| > limit) {
      emitted' := emitted' + [Page(page')];
      page' := [];
      pageSize' := 0;
    }
    err := None;
    if |line| >= limit {
      if limit <= 0 {
        err := Some(InvalidWidth(limit));
        return;
      }
      var subPages := Chunks(line, limit);
      if |subPages[|subPages| - 1]| < limit {
        var subLine := subPages[|subPages| - 1];
        subPages := subPages[..|subPages| - 1];
        pageSize' := pageSize' + |subLine|;
        page' := page' + [subLine];
      }
      emitted' := emitted' + Pieces(subPages);
    } else {
      pageSize' := pageSize' + |line|;
      page' := page' + [line];
    }
  }

  /** `sync_paginate_string`: the loop over a synchronous iterable. */
  method SyncPaginateString(lines: seq<string>, charLimit: int, lineLimit: int, wrapper: Option<Wrapper>)
    returns (pages: seq<string>, error: Option<Error>)
    ensures (pages, error) == Paginate(lines, charLimit, lineLimit, wrapper)
  {
    var limit := EffectiveLimit(charLimit, wrapper);
    var emitted: seq<Emitted> := [];
    var page: seq<string> := [];
    var pageSize := 0;
    var i := 0;
    assert lines[0..] == lines;
    while i < |lines|
      invariant 0 <= i <= |lines|
      invariant Run(PageState(emitted, page, pageSize), lines[i..], limit, lineLimit) == Run(START, lines, limit, lineLimit)
      decreases |lines| - i
    {
      assert lines[i..][1..] == lines[i + 1..];
      var line := lines[i];
      var err;
      emitted, page, pageSize, err := StepLine(emitted, page, pageSize, line, limit, lineLimit);
      if err.Some? {
        return RenderAll(emitted, wrapper), err;
      }
      i := i + 1;
    }
    assert lines[i..] == [];
    ghost var final := Run(PageState(emitted, page, pageSize), [], limit, lineLimit);
    if |page| > 0 {
      emitted := emitted + [Page(page)];
    }
    assert final.emitted == emitted;
    pages, error := RenderAll(emitted, wrapper), None;
  }

  /** `async_paginate_string`: the same loop over an asynchronous
    * iterator, which it consumes up to the line that fails, if any. */
  method AsyncPaginateString(lines: Internal.Iterator<string>, charLimit: int, lineLimit: int, wrapper: Option<Wrapper>)
    returns (pages: seq<string>, error: Option<Error>)
    requires lines.Valid()
    modifies lines
    ensures lines.Valid() && lines.items == old(lines.items)
    ensures (pages, error) == Paginate(old(lines.Remaining()), charLimit, lineLimit, wrapper)
    ensures error.None? ==> lines.Remaining() == []
  {
    var limit := EffectiveLimit(charLimit, wrapper);
    var emitted: seq<Emitted> := [];
    var page: seq<string> := [];
    var pageSize := 0;
    while true
      invariant lines.Valid() && lines.items == old(lines.items)
      invariant Run(PageState(emitted, page, pageSize), lines.Remaining(), limit, lineLimit)
        == Run(START, old(lines.Remaining()), limit, lineLimit)
      decreases |lines.items| - lines.pos
    {
      ghost var rest := lines.Remaining();
      var next := lines.SeekIterator();
      if next.None? {
        break;
      }
      assert rest[1..] == lines.Remaining();
      var line := next.value;
      var err;
      emitted, page, pageSize, err := StepLine(emitted, page, pageSize, line, limit, lineLimit);
      if err.Some? {
        return RenderAll(emitted, wrapper), err;
      }
    }
    ghost var final := Run(PageState(emitted, page, pageSize), [], limit, lineLimit);
    if |page| > 0 {
      emitted := emitted + [Page(page)];
    }
    assert final.emitted == emitted;
    pages, error := RenderAll(emitted, wrapper), None;
  }

  /** The lines `paginate_string` is given: an async iterable goes to the
    * async paginator and anything else to the sync one. */
  datatype Lines = AsyncLines(source: Internal.Iterator<string>) | SyncLines(items: seq<string>)

  method PaginateString(lines: Lines, charLimit: int, lineLimit: int, wrapper: Option<Wrapper>)
    returns (pages: seq<string>, error: Option<Error>)
    requires lines.AsyncLines? ==> lines.source.Valid()
    modifies if lines.AsyncLines? then {lines.source} else {}
    ensures lines.AsyncLines? ==>
      (pages, error) == Paginate(old(lines.source.Remaining()), charLimit, lineLimit, wrapper)
    ensures lines.SyncLines? ==> (pages, error) == Paginate(lines.items, charLimit, lineLimit, wrapper)
  {
    match lines
    case AsyncLines(source) => pages, error := AsyncPaginateString(source, charLimit, lineLimit, wrapper);
    case SyncLines(items) => pages, error := SyncPaginateString(items, charLimit, lineLimit, wrapper);
  }

  /** `aenumerate`: each value with its position, counting from 0. */
  method AEnumerate<T>(source: Internal.Iterator<T>) returns (r: seq<(int, T)>)
    requires source.Valid()
    modifies source
    ensures source.Valid() && source.items == old(source.items) && source.Remaining() == []
    ensures |r| == |old(source.Remaining())|
    ensures forall i :: 0 <= i < |r| ==> r[i] == (i, old(source.Remaining())[i])
  {
    var counter := -1;
    r := [];
    ghost var all := source.Remaining();
    while true
      invariant source.Valid() && source.items == old(source.items)
      invariant counter == |r| - 1 && |r| <= |all|
      invariant source.Remaining() == all[|r|..]
      invariant forall i :: 0 <= i < |r| ==> r[i] == (i, all[i])
      decreases |source.items| - source.pos
    {
      var value := source.SeekIterator();
      if value.None? {
        break;
      }
      counter := counter + 1;
      r := r + [(counter, value.value)];
    }
  }
}
