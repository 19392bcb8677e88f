/**
 * Query normalisation shared by the admin list and the station list:
 * the page / pageSize clamp, the row offset, the page count and the
 * `%term%` LIKE pattern built from a trimmed search term.
 */
module ListQuery {
  import opened JsBuiltins

  /**
   * What `parseInt(raw)` yields for a query parameter whose destructuring
   * default is `dflt`: an absent parameter takes the default number, which
   * parseInt reads back unchanged (JsBuiltins.ParseIntOfDecimal).
   */
  function Requested(raw: Option<string>, dflt: int): Option<int>
  {
    match raw
    case None => Some(dflt)
    case Some(s) => ParseInt(s)
  }

  /** `Math.max(1, parseInt(page) || 1)` with `page = 1` as default. */
  function Page(raw: Option<string>): (p: int)
    ensures p >= 1
    ensures var v := Requested(raw, 1);
            p == if v.Some? && v.value > 0 then v.value else 1
  {
    var v := Requested(raw, 1);
    var n := if v.Some? && v.value != 0 then v.value else 1;
    if n < 1 then 1 else n
  }

  /**
   * `Math.min(100, Math.max(1, parseInt(pageSize) || 10))` with
   * `pageSize = 10` as default: NaN and 0 fall back to 10, a negative
   * value clamps to 1, anything above 100 to 100.
   */
  function PageSize(raw: Option<string>): (n: int)
    ensures 1 <= n <= 100
    ensures var v := Requested(raw, 10);
            n == if v.None? || v.value == 0 then 10
                 else if v.value < 0 then 1
                 else if v.value > 100 then 100
                 else v.value
  {
    var v := Requested(raw, 10);
    var m := if v.Some? && v.value != 0 then v.value else 10;
    var lower := if m < 1 then 1 else m;
    if lower > 100 then 100 else lower
  }

  /** Rows skipped before the requested page: `(page - 1) * pageSize`. */
  function Offset(page: int, pageSize: int): (r: int)
    requires page >= 1 && pageSize >= 1
    ensures r >= 0
    ensures page == 1 ==> r == 0
  {
    (page - 1) * pageSize
  }

  /** Consecutive pages tile the rows: page p + 1 starts where page p ends. */
  lemma PagesTile(page: int, pageSize: int)
    requires page >= 1 && pageSize >= 1
    ensures Offset(page + 1, pageSize) == Offset(page, pageSize) + pageSize
  {
  }

  /** `Math.ceil(total / pageSize)`: the fewest pages that hold total rows. */
  function TotalPages(total: nat, pageSize: int): (r: int)
    requires pageSize >= 1
    ensures r >= 0
    ensures total <= r * pageSize
    ensures r > 0 ==> (r - 1) * pageSize < total
  {
    var q := total as real / pageSize as real;
    var c := Ceil(q);
    assert q * pageSize as real == total as real;
    ScaleStrict(c as real - 1.0, q, pageSize as real);
    ScaleWeak(q, c as real, pageSize as real);
    c
  }

  lemma ScaleStrict(a: real, b: real, k: real)
    requires a < b && k > 0.0
    ensures a * k < b * k
  {
  }

  lemma ScaleWeak(a: real, b: real, k: real)
    requires a <= b && k > 0.0
    ensures a * k <= b * k
  {
  }

  /** A page holds rows exactly when it is one of the totalPages pages. */
  lemma PageInRange(total: nat, page: int, pageSize: int)
    requires page >= 1 && pageSize >= 1
    ensures Offset(page, pageSize) < total <==> page <= TotalPages(total, pageSize)
  {
    var t := TotalPages(total, pageSize);
    if page <= t {
      assert (page - 1) * pageSize <= (t - 1) * pageSize;
    } else {
      assert t * pageSize <= (page - 1) * pageSize;
    }
  }

  /** A non-numeric, zero or missing page is page 1; only a positive page moves. */
  lemma PageDefaults(s: string)
    ensures ParseInt(s).None? ==> Page(Some(s)) == 1 && PageSize(Some(s)) == 10
    ensures ParseInt(s) == Some(0) ==> Page(Some(s)) == 1 && PageSize(Some(s)) == 10
    ensures Page(None) == 1 && PageSize(None) == 10
  {
  }

  /**
   * The LIKE filter `%${term.trim()}%`, added only when the term is truthy
   * and not blank after trimming.
   */
  function ContainsPattern(term: Option<string>): (r: Option<string>)
    ensures r.Some? <==> term.Some? && exists i :: 0 <= i < |term.value| && !IsWhitespace(term.value[i])
    ensures r.Some? ==> r.value == "%" + Trim(term.value) + "%"
  {
    match term
    case None => None
    case Some(t) =>
      TrimEmptyIff(t);
      if t != "" && Trim(t) != "" then Some("%" + Trim(t) + "%") else None
  }
}
