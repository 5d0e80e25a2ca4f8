/**
 * The order SQLite uses for the TEXT column `news.published_at` in `ORDER BY ... DESC`:
 * the BINARY collation compares strings character by character (for UTF-8 text this is
 * code-point order), and NULL sorts below every string, so it comes last in descending order.
 */
module Collation {
  import opened Wrappers

  /** `a <= b` under the BINARY collation: lexicographic, a proper prefix sorting first. */
  predicate TextLe(a: string, b: string)
    decreases |a|
  {
    if a == [] then true
    else if b == [] then false
    else if a[0] != b[0] then a[0] < b[0]
    else TextLe(a[1..], b[1..])
  }

  lemma {:induction false} TextLeTotal(a: string, b: string)
    ensures TextLe(a, b) || TextLe(b, a)
    decreases |a|
  {
    if a != [] && b != [] && a[0] == b[0] {
      TextLeTotal(a[1..], b[1..]);
    }
  }

  lemma {:induction false} TextLeTransitive(a: string, b: string, c: string)
    requires TextLe(a, b) && TextLe(b, c)
    ensures TextLe(a, c)
    decreases |a|
  {
    if a != [] && b != [] && c != [] && a[0] == b[0] && b[0] == c[0] {
      TextLeTransitive(a[1..], b[1..], c[1..]);
    }
  }

  /** `x` comes no later than `y` in `ORDER BY published_at DESC`: NULL is last, strings descend. */
  predicate PublishedNoLater(x: Option<string>, y: Option<string>) {
    y.None? || (x.Some? && TextLe(y.value, x.value))
  }

  lemma PublishedNoLaterTotal(x: Option<string>, y: Option<string>)
    ensures PublishedNoLater(x, y) || PublishedNoLater(y, x)
  {
    if x.Some? && y.Some? {
      TextLeTotal(x.value, y.value);
    }
  }

  lemma PublishedNoLaterTransitive(x: Option<string>, y: Option<string>, z: Option<string>)
    requires PublishedNoLater(x, y) && PublishedNoLater(y, z)
    ensures PublishedNoLater(x, z)
  {
    if z.Some? {
      TextLeTransitive(z.value, y.value, x.value);
    }
  }

  /**
   * Text order is not time order: an RSS date such as "Mon, 06 Jan 2025 ..." (a letter first)
   * outranks every ISO-8601 date from the search API ("2025-...", a digit first) whatever the
   * instants, so the "most recent first" tie-break compares spellings, not dates.
   */
  lemma LetterDatesSortAboveDigitDates(rss: string, iso: string)
    requires |rss| > 0 && 'A' <= rss[0] <= 'Z'
    requires |iso| > 0 && '0' <= iso[0] <= '9'
    ensures PublishedNoLater(Some(rss), Some(iso))
    ensures !PublishedNoLater(Some(iso), Some(rss))
  {
  }
}
