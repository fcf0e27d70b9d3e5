/** Timestamp normalisation: a GPX `<time>` text is tried against a fixed,
    ordered list of layouts and the first layout that accepts it decides the
    instant. What each layout accepts (Go's `time.Parse`) is a parameter. */
module TimeParse {
  import opened Nullable

  /** The accepted layouts; the first two are the date-time formats of
      section 5.6 of RFC 3339, with and without fractional seconds. */
  datatype Layout =
    | RFC3339Nano    // 2006-01-02T15:04:05.999999999Z07:00
    | RFC3339        // 2006-01-02T15:04:05Z07:00
    | MillisUtc      // 2006-01-02T15:04:05.000Z
    | CompactOffset  // 2006-01-02T15:04:05Z0700
    | SpacedOffset   // 2006-01-02 15:04:05Z07:00

  /** The order in which layouts are tried. */
  const Layouts: seq<Layout> := [RFC3339Nano, RFC3339, MillisUtc, CompactOffset, SpacedOffset]

  /** What one layout makes of a text: the instant in nanoseconds since the
      Unix epoch, or `None` when the text does not fit the layout. */
  type LayoutParser = (Layout, string) -> Option<int>

  /** `Layouts[i]` is the first layout that accepts `s`. */
  ghost predicate FirstAccepting(parse: LayoutParser, s: string, i: int)
  {
    && 0 <= i < |Layouts|
    && parse(Layouts[i], s).Some?
    && forall j :: 0 <= j < i ==> parse(Layouts[j], s).None?
  }

  /** Tries `Layouts[k..]` in order. */
  function ParseFrom(parse: LayoutParser, s: string, k: nat): (r: Option<int>)
    requires k <= |Layouts|
    ensures r.None? <==> forall i :: k <= i < |Layouts| ==> parse(Layouts[i], s).None?
    ensures r.Some? ==> exists i :: k <= i < |Layouts| && parse(Layouts[i], s) == r
                                    && forall j :: k <= j < i ==> parse(Layouts[j], s).None?
    decreases |Layouts| - k
  {
    if k == |Layouts| then None
    else match parse(Layouts[k], s)
      case Some(t) => Some(t)
      case None => ParseFrom(parse, s, k + 1)
  }

  /** `parseTime`: total; the result of the first layout that accepts `s`,
      and `None` exactly when no layout does. */
  function ParseTime(parse: LayoutParser, s: string): (r: Option<int>)
    ensures r.None? <==> forall l :: l in Layouts ==> parse(l, s).None?
    ensures r.Some? ==> exists i :: FirstAccepting(parse, s, i) && parse(Layouts[i], s) == r
  {
    var r := ParseFrom(parse, s, 0);
    assert r.None? <==> forall l :: l in Layouts ==> parse(l, s).None? by {
      if r.None? {
        forall l | l in Layouts ensures parse(l, s).None? {
          var i :| 0 <= i < |Layouts| && Layouts[i] == l;
        }
      }
    }
    r
  }

  /** When every layout that accepts `s` reads the same instant `t` from it (as
      layouts describing the same fields do), the order of the list does not
      matter: `ParseTime` yields `t`. Given layouts that agree on it, the
      test's "2020-01-02T15:04:05Z" would so parse to 15:04:05 UTC on
      2 January 2020. */
  lemma ParseTimeAgreesWithAcceptingLayout(parse: LayoutParser, s: string, l: Layout, t: int)
    requires l in Layouts && parse(l, s) == Some(t)
    requires forall l' :: l' in Layouts && parse(l', s).Some? ==> parse(l', s) == Some(t)
    ensures ParseTime(parse, s) == Some(t)
  {
    var r := ParseTime(parse, s);
    assert r.Some?;
    var i :| FirstAccepting(parse, s, i) && parse(Layouts[i], s) == r;
    assert Layouts[i] in Layouts;
  }

  /** A text that no layout before the `k`-th accepts, and the `k`-th does,
      is read by the `k`-th layout: later layouts are never consulted. */
  lemma ParseTimeFallsThrough(parse: LayoutParser, s: string, k: nat)
    requires k < |Layouts| && parse(Layouts[k], s).Some?
    requires forall j :: 0 <= j < k ==> parse(Layouts[j], s).None?
    ensures ParseTime(parse, s) == parse(Layouts[k], s)
  {
    var r := ParseTime(parse, s);
    var i :| FirstAccepting(parse, s, i) && parse(Layouts[i], s) == r;
    if i < k {
    } else if i > k {
    }
  }
}
