/**
 * `LIMIT ... OFFSET ...` windows over an ordered result, the default window
 * the services use, and the `{data, count, limit, offset}` list envelope.
 */
module Paging {
  import opened Query

  /** The configured defaults (`pagination.limit` and `pagination.offset`). */
  const DEFAULT_PAGINATION_LIMIT: nat := 100
  const DEFAULT_PAGINATION_OFFSET: nat := 0

  /** The list envelope a service returns. */
  datatype Page<T> = Page(data: seq<T>, count: nat, limit: nat, offset: nat)

  /** How many of `total` ordered rows a window shows: none past the end, at most `limit`. */
  function PageSize(total: nat, limit: nat, offset: nat): nat {
    if offset >= total then 0
    else if limit < total - offset then limit
    else total - offset
  }

  /** `LIMIT limit OFFSET offset`: skip `offset` rows and return at most `limit` of the rest. */
  function Window<T>(s: seq<T>, limit: nat, offset: nat): (r: seq<T>)
    ensures |r| <= limit
    ensures |r| == PageSize(|s|, limit, offset)
    ensures forall i :: 0 <= i < |r| ==> r[i] == s[offset + i]
  {
    if offset >= |s| then [] else s[offset .. offset + PageSize(|s|, limit, offset)]
  }

  /** A window of an ordered result is itself ordered. */
  lemma WindowKeepsOrder<T>(s: seq<T>, le: (T, T) -> bool, limit: nat, offset: nat)
    requires Sorted(s, le)
    ensures Sorted(Window(s, limit, offset), le)
  {
    var r := Window(s, limit, offset);
    forall i, j | 0 <= i < j < |r|
      ensures le(r[i], r[j])
    {
      assert r[i] == s[offset + i] && r[j] == s[offset + j];
    }
  }

  /** Two consecutive pages, read one after the other, are the one larger page. */
  lemma ConsecutivePages<T>(s: seq<T>, first: nat, second: nat, offset: nat)
    ensures Window(s, first, offset) + Window(s, second, offset + first)
         == Window(s, first + second, offset)
  {
    var a, b, ab := Window(s, first, offset), Window(s, second, offset + first), Window(s, first + second, offset);
    assert |a + b| == |ab|;
    forall i | 0 <= i < |ab|
      ensures (a + b)[i] == ab[i]
    {
      if i < |a| {
        assert (a + b)[i] == a[i] == s[offset + i];
      } else {
        assert (a + b)[i] == b[i - |a|] == s[offset + first + (i - |a|)];
      }
    }
  }

  /** A window as large as the whole result, from the start, is the whole result. */
  lemma WholeWindow<T>(s: seq<T>)
    ensures Window(s, |s|, 0) == s
  {
  }
}
