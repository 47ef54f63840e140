/** Pagination of the list views of src/SchedulerComponent.js (ten rows a
    page), the page-number box's parsing, and the jump bounds. */
module Paging {
  import opened Common

  const PageSlotMax: int := 10

  /** `Array.prototype.slice`'s treatment of an index: negative ones count
      from the end, and both are clamped to `[0, n]`. */
  function SliceIndex(i: int, n: nat): (r: nat)
    ensures r <= n
    ensures 0 <= i ==> r == Min(i, n)
    ensures i < 0 ==> r == Max(n + i, 0)
  {
    if i < 0 then (if n + i < 0 then 0 else n + i) else if i > n then n else i
  }

  /** `s.slice(start, end)`. */
  function JsSlice<T>(s: seq<T>, start: int, end: int): (r: seq<T>)
    ensures |r| <= |s|
    ensures 0 <= start <= end ==> |r| <= end - start
    ensures SliceIndex(start, |s|) + |r| <= |s|
    ensures forall k :: 0 <= k < |r| ==> r[k] == s[SliceIndex(start, |s|) + k]
  {
    var a := SliceIndex(start, |s|);
    var b := SliceIndex(end, |s|);
    if a >= b then [] else s[a..b]
  }

  /** getcurrentPageSlots: rows `page * 10` up to, not including, `page * 10 + 10`. */
  function CurrentPageSlots<T>(rows: seq<T>, page: int): seq<T> {
    JsSlice(rows, page * PageSlotMax, page * PageSlotMax + PageSlotMax)
  }

  /** getCurrentPageSchedule, which computes its end index with an explicit
      comparison against the row count. */
  function CurrentPageSchedule<T>(rows: seq<T>, page: int): seq<T> {
    var endIndex := if |rows| < (page + 1) * PageSlotMax then |rows| else (page + 1) * PageSlotMax;
    JsSlice(rows, page * PageSlotMax, endIndex)
  }

  /** The two page getters agree on every page, negative ones included. */
  lemma PageGettersAgree<T>(rows: seq<T>, page: int)
    ensures CurrentPageSchedule(rows, page) == CurrentPageSlots(rows, page)
  {
    assert (page + 1) * PageSlotMax == page * PageSlotMax + PageSlotMax;
  }

  /** `Math.ceil(n / PAGE_SLOT_MAX)`. */
  function TotalPages(n: nat): (r: nat)
    ensures (r - 1) * PageSlotMax < n <= r * PageSlotMax
    ensures r == 0 <==> n == 0
  {
    (n + PageSlotMax - 1) / PageSlotMax
  }

  /** A page within `[0, TotalPages)` holds indices `page * 10 ..` of the
      rows: ten of them except possibly the last page, and never none. */
  lemma PageContents<T>(rows: seq<T>, page: int)
    requires 0 <= page < TotalPages(|rows|)
    ensures var p := CurrentPageSlots(rows, page);
      && 0 < |p| <= PageSlotMax
      && (page < TotalPages(|rows|) - 1 ==> |p| == PageSlotMax)
      && p == rows[page * PageSlotMax .. Min(page * PageSlotMax + PageSlotMax, |rows|)]
  {
    var n := TotalPages(|rows|);
    assert page * PageSlotMax <= (n - 1) * PageSlotMax;
    if page < n - 1 {
      assert (page + 1) * PageSlotMax <= (n - 1) * PageSlotMax;
    }
  }

  /** A page at or past `TotalPages` is empty. */
  lemma PagePastEndEmpty<T>(rows: seq<T>, page: int)
    requires page >= TotalPages(|rows|)
    ensures CurrentPageSlots(rows, page) == []
  {
    assert page * PageSlotMax >= TotalPages(|rows|) * PageSlotMax;
  }

  /** The first `k` pages, in order. */
  function FirstPages<T>(rows: seq<T>, k: nat): seq<T>
    decreases k
  {
    if k == 0 then [] else FirstPages(rows, k - 1) + CurrentPageSlots(rows, k - 1)
  }

  lemma {:induction false} FirstPagesPrefix<T>(rows: seq<T>, k: nat)
    ensures FirstPages(rows, k) == rows[..Min(k * PageSlotMax, |rows|)]
    decreases k
  {
    if k > 0 {
      FirstPagesPrefix(rows, k - 1);
      var a := Min((k - 1) * PageSlotMax, |rows|);
      var b := Min(k * PageSlotMax, |rows|);
      assert (k - 1) * PageSlotMax + PageSlotMax == k * PageSlotMax;
      assert CurrentPageSlots(rows, k - 1) == rows[a..b];
      assert rows[..a] + rows[a..b] == rows[..b];
    }
  }

  /** Reading the pages `0 .. TotalPages - 1` in turn shows every row once,
      in order. */
  lemma PagesPartitionRows<T>(rows: seq<T>)
    ensures FirstPages(rows, TotalPages(|rows|)) == rows
  {
    FirstPagesPrefix(rows, TotalPages(|rows|));
    assert rows[..|rows|] == rows;
  }

  // ---------------------------------------------------------------------
  // parseInt(pageInputValue, 10)

  predicate IsDigit(c: char) { '0' <= c <= '9' }

  function DigitValue(c: char): int requires IsDigit(c) { c as int - '0' as int }

  /** How many digits `s` starts with. */
  function LeadingDigits(s: string): (r: nat)
    ensures r <= |s|
    ensures forall k :: 0 <= k < r ==> IsDigit(s[k])
    ensures r < |s| ==> !IsDigit(s[r])
  {
    if s == [] || !IsDigit(s[0]) then 0 else 1 + LeadingDigits(s[1..])
  }

  /** The value of a run of decimal digits. */
  function DigitsValue(ds: string): nat
    requires forall k :: 0 <= k < |ds| ==> IsDigit(ds[k])
    decreases |ds|
  {
    if ds == [] then 0 else DigitsValue(ds[..|ds| - 1]) * 10 + DigitValue(ds[|ds| - 1])
  }

  predicate IsSpace(c: char) { c == ' ' || c == '\t' || c == '\n' || c == '\r' }

  function SkipSpaces(s: string): (r: string)
    ensures |r| <= |s| && r == s[|s| - |r|..]
    ensures r != [] ==> !IsSpace(r[0])
  {
    if s != [] && IsSpace(s[0]) then SkipSpaces(s[1..]) else s
  }

  /** `parseInt(s, 10)`: leading white space, an optional sign, then the
      longest run of digits; `None` stands for NaN (no digit at all). */
  function ParseInt(s: string): Option<int>
  {
    var t := SkipSpaces(s);
    var negative := t != [] && t[0] == '-';
    var body := if t != [] && (t[0] == '-' || t[0] == '+') then t[1..] else t;
    var n := LeadingDigits(body);
    if n == 0 then None
    else
      var v: int := DigitsValue(body[..n]);
      Some(if negative then -v else v)
  }

  /** parseInt gives a number only for text holding a digit. */
  lemma ParseIntNeedsDigit(s: string)
    ensures ParseInt(s).Some? ==> exists k :: 0 <= k < |s| && IsDigit(s[k])
  {
    var t := SkipSpaces(s);
    var body := if t != [] && (t[0] == '-' || t[0] == '+') then t[1..] else t;
    if LeadingDigits(body) > 0 {
      assert body[0] in s;
    }
  }

  function DigitChar(d: int): (c: char)
    requires 0 <= d < 10
    ensures IsDigit(c) && DigitValue(c) == d
  {
    ('0' as int + d) as char
  }

  /** The decimal numeral of `n`, as the page box displays and accepts it. */
  function Decimal(n: nat): (r: string)
    ensures |r| > 0 && forall k :: 0 <= k < |r| ==> IsDigit(r[k])
  {
    if n < 10 then [DigitChar(n)] else Decimal(n / 10) + [DigitChar(n % 10)]
  }

  lemma {:induction false} DecimalValue(n: nat)
    ensures DigitsValue(Decimal(n)) == n
  {
    if n >= 10 {
      DecimalValue(n / 10);
      var r := Decimal(n);
      assert r[..|r| - 1] == Decimal(n / 10);
    } else {
      assert Decimal(n)[..0] == [];
    }
  }

  /** parseInt reads back every numeral it is given. */
  lemma ParseDecimal(n: nat)
    ensures ParseInt(Decimal(n)) == Some(n)
  {
    var s := Decimal(n);
    assert SkipSpaces(s) == s;
    assert LeadingDigits(s) == |s| by { LeadingAllDigits(s); }
    assert s[..|s|] == s;
    DecimalValue(n);
  }

  lemma {:induction false} LeadingAllDigits(s: string)
    requires forall k :: 0 <= k < |s| ==> IsDigit(s[k])
    ensures LeadingDigits(s) == |s|
  {
    if s != [] { LeadingAllDigits(s[1..]); }
  }

  // ---------------------------------------------------------------------
  // handleJumpToPage

  /** The zero-based page a jump lands on, if the typed number lies in
      `[1, TotalPages]`; otherwise the current page stays. */
  function JumpTarget(input: string, rowCount: nat): (r: Option<int>)
    ensures r.Some? ==> 0 <= r.value < TotalPages(rowCount)
  {
    match ParseInt(input)
    case Some(p) => if 1 <= p <= TotalPages(rowCount) then Some(p - 1) else None
    case None => None
  }

  /** Typing the one-based number of any existing page jumps to it, and the
      page jumped to is never empty. */
  lemma JumpToTypedPage<T>(rows: seq<T>, page: nat)
    requires page < TotalPages(|rows|)
    ensures JumpTarget(Decimal(page + 1), |rows|) == Some(page)
    ensures CurrentPageSlots(rows, page) != []
  {
    ParseDecimal(page + 1);
    PageContents(rows, page);
  }

  // ---------------------------------------------------------------------
  // Row buttons

  /** The edit and delete buttons of a listed row pass the row's position on
      the page shown, and the handlers read the whole sorted list at that
      position. On any page after the first, with no row listed twice, the
      row acted on is not the row clicked. */
  lemma PageIndexMissesShownRow<T>(rows: seq<T>, page: int, index: int)
    requires 0 < page < TotalPages(|rows|) && 0 <= index < |CurrentPageSlots(rows, page)|
    requires forall i, j :: 0 <= i < j < |rows| ==> rows[i] != rows[j]
    ensures index < |rows| && rows[index] != CurrentPageSlots(rows, page)[index]
  {
    PageContents(rows, page);
    assert CurrentPageSlots(rows, page)[index] == rows[page * PageSlotMax + index];
  }

  /** The position in the whole sorted list of the row at `index` on `page`. */
  function ShownRowIndex(page: int, index: int): int {
    page * PageSlotMax + index
  }

  /** Offsetting by the page makes the handlers act on the row clicked. */
  lemma ShownRowIndexIsShown<T>(rows: seq<T>, page: int, index: int)
    requires 0 <= page < TotalPages(|rows|) && 0 <= index < |CurrentPageSlots(rows, page)|
    ensures 0 <= ShownRowIndex(page, index) < |rows|
    ensures rows[ShownRowIndex(page, index)] == CurrentPageSlots(rows, page)[index]
  {
    PageContents(rows, page);
  }
}
