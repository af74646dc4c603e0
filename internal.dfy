/** Custom-id codec and iterator helpers shared by the component, modal and
  * paginator code (yuyo/_internal/__init__.py). */
module Internal {
  import opened Wrappers

  /** Index of the first ':' in `s`, or `|s|` when there is none. */
  function ColonIndex(s: string): (i: nat)
    ensures i <= |s|
    ensures ':' !in s[..i]
    ensures i < |s| ==> s[i] == ':'
  {
    if |s| == 0 then 0
    else if s[0] == ':' then 0
    else
      var j := ColonIndex(s[1..]);
      assert s[..j + 1] == [s[0]] + s[1..][..j];
      j + 1
  }

  /** The two halves of a custom id: what a registry matches on, and the
    * metadata after the first ':'. */
  datatype SplitId = SplitId(idMatch: string, idMetadata: string)

  /** `split_custom_id`: cuts at the first ':' only. */
  function SplitCustomId(customId: string): (r: SplitId)
    ensures ':' !in r.idMatch
    ensures ':' in customId ==> customId == r.idMatch + ":" + r.idMetadata
    ensures ':' !in customId ==> r.idMatch == customId && r.idMetadata == ""
  {
    var i := ColonIndex(customId);
    if i < |customId| then
      assert customId == customId[..i] + ":" + customId[i + 1..];
      SplitId(customId[..i], customId[i + 1..])
    else
      assert customId[..i] == customId;
      SplitId(customId, "")
  }

  /** A cut at a ':' is unique once the first half holds no ':'. */
  lemma {:induction false} ColonCutUnique(a: string, b: string, c: string, e: string)
    requires ':' !in a && ':' !in c
    requires a + ":" + b == c + ":" + e
    ensures a == c && b == e
  {
    var s := a + ":" + b;
    assert s[|a|] == ':' && s[|c|] == ':';
    assert |a| == |c|;
    assert a == s[..|a|] == c;
    assert b == s[|a| + 1..] == e;
  }

  /** Round trip: joining a colon-free match and any metadata with ':' and
    * splitting gives both back; a colon-free id splits to itself and "". */
  lemma SplitJoinRoundTrip(m: string, d: string)
    requires ':' !in m
    ensures SplitCustomId(m + ":" + d) == SplitId(m, d)
    ensures SplitCustomId(m) == SplitId(m, "")
  {
    var s := m + ":" + d;
    assert s[|m|] == ':';
    var r := SplitCustomId(s);
    ColonCutUnique(r.idMatch, r.idMetadata, m, d);
  }

  /** A generated match id and the full custom id it belongs to. */
  datatype MatchId = MatchId(idMatch: string, customId: string)

  /** `gen_custom_id`: `randomId` stands for the uuid4 hex that
    * `random_custom_id` draws when no id is given. */
  function GenCustomId(customId: Option<string>, randomId: string): (r: MatchId)
    ensures customId.None? ==> r.idMatch == randomId && r.customId == randomId
    ensures customId.Some? ==> r.customId == customId.value
    ensures customId.Some? ==>
      r.idMatch <= r.customId && ':' !in r.idMatch &&
      (|r.idMatch| < |r.customId| ==> r.customId[|r.idMatch|] == ':')
  {
    match customId
    case None => MatchId(randomId, randomId)
    case Some(id) =>
      var m := SplitCustomId(id).idMatch;
      assert ':' in id ==> id == m + ":" + SplitCustomId(id).idMetadata;
      MatchId(m, id)
  }

  /** Whatever id is generated, its match part is what `split_custom_id`
    * recovers from the full id (a uuid hex never holds ':'). */
  lemma {:induction false} GenCustomIdSplits(customId: Option<string>, randomId: string)
    requires ':' !in randomId
    ensures SplitCustomId(GenCustomId(customId, randomId).customId).idMatch
         == GenCustomId(customId, randomId).idMatch
  {
    var r := GenCustomId(customId, randomId);
    if customId.None? {
      SplitJoinRoundTrip(randomId, "");
    }
  }

  /** A forward-only source of values: the values it will yield and how many
    * it has yielded so far. */
  class Iterator<T> {
    var items: seq<T>
    var pos: nat

    ghost predicate Valid()
      reads this
    {
      pos <= |items|
    }

    /** The values not yet yielded. */
    function Remaining(): seq<T>
      reads this
      requires Valid()
    {
      items[pos..]
    }

    constructor (items: seq<T>)
      ensures Valid() && this.items == items && pos == 0
    {
      this.items := items;
      pos := 0;
    }

    /** `anext_` without a default: StopAsyncIteration once exhausted. */
    method ANext() returns (r: Result<T>)
      requires Valid()
      modifies this
      ensures Valid() && items == old(items)
      ensures old(pos) < |items| ==> r == Success(items[old(pos)]) && pos == old(pos) + 1
      ensures old(pos) == |items| ==> r == Failure(StopAsyncIteration) && pos == old(pos)
    {
      if pos < |items| {
        r := Success(items[pos]);
        pos := pos + 1;
      } else {
        r := Failure(StopAsyncIteration);
      }
    }

    /** `seek_iterator(iterator, default=None)` (and `anext_` with a None
      * default): consumes one value and returns it, or None and consumes
      * nothing once exhausted. */
    method SeekIterator() returns (r: Option<T>)
      requires Valid()
      modifies this
      ensures Valid() && items == old(items)
      ensures old(pos) < |items| ==> r == Some(items[old(pos)]) && pos == old(pos) + 1
      ensures old(pos) == |items| ==> r == None && pos == old(pos)
    {
      if pos < |items| {
        r := Some(items[pos]);
        pos := pos + 1;
      } else {
        r := None;
      }
    }

    /** `collect_iterable`: every remaining value in order; the source is
      * left exhausted. */
    method CollectIterable() returns (r: seq<T>)
      requires Valid()
      modifies this
      ensures Valid() && items == old(items)
      ensures r == old(Remaining()) && pos == |items|
    {
      r := [];
      while pos < |items|
        invariant items == old(items)
        invariant old(pos) <= pos <= |items|
        invariant r == items[old(pos)..pos]
        decreases |items| - pos
      {
        r := r + [items[pos]];
        pos := pos + 1;
      }
    }
  }

  /** A paginator's state: the pages fetched so far, the index of the page
    * shown, and what its source has still to yield (None once dropped). */
  datatype Cursor<T> = Cursor(buffer: seq<T>, index: int, source: Option<seq<T>>)
  {
    /** Every page the paginator can still reach, in order. */
    function Pages(): seq<T>
    {
      buffer + source.UnwrapOr([])
    }

    /** The index points into the buffer, or is -1 before the first page. */
    predicate InRange()
    {
      -1 <= index < |buffer|
    }

    /** The index is -1, in the buffer, or just past it. */
    predicate Placed()
    {
      -1 <= index <= |buffer|
    }
  }
}
