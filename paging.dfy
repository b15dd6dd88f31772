/**
 * The page and grid arithmetic of `main()`: how many pages the camera list needs for a
 * view mode, which slice of the list a page shows, how many grid rows that slice fills,
 * and which global camera index each grid cell shows.
 */
module Paging {

  /** The layouts of the "View Mode" selector. */
  datatype ViewMode = Grid2x2 | Grid3x3 | Grid4x4 | Grid6x6

  /** `view_config["cols"]` */
  function Cols(m: ViewMode): (c: nat)
    ensures 2 <= c <= 6
  {
    match m
    case Grid2x2 => 2
    case Grid3x3 => 3
    case Grid4x4 => 4
    case Grid6x6 => 6
  }

  /** `view_config["cameras_per_page"]`: every layout is a square grid. */
  function CamerasPerPage(m: ViewMode): (k: nat)
    ensures k == Cols(m) * Cols(m)
  {
    match m
    case Grid2x2 => 4
    case Grid3x3 => 9
    case Grid4x4 => 16
    case Grid6x6 => 36
  }

  function Min(a: int, b: int): int
  {
    if a <= b then a else b
  }

  /** `total_pages = (len(camera_urls) - 1) // cameras_per_page + 1`. Python's `//` floors
      and Dafny's `/` is Euclidean; they agree because the divisor is positive. */
  function TotalPages(n: nat, k: nat): (t: nat)
    requires k > 0
    ensures n == 0 ==> t == 0
    ensures n > 0 ==> (t - 1) * k < n <= t * k
  {
    var q := (n - 1) / k;
    assert n - 1 == q * k + (n - 1) % k;
    assert n > 0 ==> q >= 0;
    assert n == 0 ==> q == -1;
    q + 1
  }

  /** `current_page`: the zero-based page picked in the page selector, which offers pages
      1 to `total` and is shown only when there is more than one page. */
  function CurrentPage(total: nat, choice: nat): (p: nat)
    requires total > 1 ==> 1 <= choice <= total
    ensures total >= 1 ==> p < total
    ensures total <= 1 ==> p == 0
  {
    if total > 1 then choice - 1 else 0
  }

  /** `start_idx = current_page * cameras_per_page` */
  function PageStart(p: nat, k: nat): (s: nat)
    ensures k > 0 ==> s % k == 0 && s / k == p
  {
    if k > 0 then
      DivSlot(p * k, k);
      SlotUnique(p * k, k, p, (p * k) / k);
      p * k
    else p * k
  }

  /** `end_idx = min(start_idx + cameras_per_page, len(camera_urls))` */
  function PageEnd(p: nat, k: nat, n: nat): (e: nat)
    ensures e <= n && e <= PageStart(p, k) + k
    ensures e == n || e == PageStart(p, k) + k
  {
    Min(p * k + k, n)
  }

  /** Python's `s[a:b]` for non-negative bounds: out-of-range bounds are clamped. */
  function Slice<T>(s: seq<T>, a: nat, b: nat): (r: seq<T>)
    ensures |r| <= |s|
    ensures a <= b <= |s| ==> r == s[a..b]
    ensures a <= |s| <= b ==> r == s[a..]
    ensures b <= a || |s| <= a ==> r == []
  {
    var lo := Min(a, |s|);
    var hi := Min(b, |s|);
    if lo <= hi then s[lo..hi] else []
  }

  /** `current_cameras = camera_urls[start_idx:end_idx]` */
  function PageCameras<T>(urls: seq<T>, p: nat, k: nat): (r: seq<T>)
    ensures |r| <= k
    ensures forall j :: 0 <= j < |r| ==> PageStart(p, k) + j < |urls| && r[j] == urls[PageStart(p, k) + j]
  {
    Slice(urls, PageStart(p, k), PageEnd(p, k, |urls|))
  }

  /** Every existing page starts inside the list, is not empty and holds at most one
      page's worth of cameras. */
  lemma PageBounds(n: nat, k: nat, p: nat)
    requires k > 0 && p < TotalPages(n, k)
    ensures 0 <= PageStart(p, k) < PageEnd(p, k, n) <= n
    ensures PageEnd(p, k, n) - PageStart(p, k) <= k
  {
    var t := TotalPages(n, k);
    assert p <= t - 1;
    assert p * k <= (t - 1) * k;
  }

  /** An existing page shows exactly the cameras from its start index up to its end index. */
  lemma PageCamerasAre<T>(urls: seq<T>, p: nat, k: nat)
    requires k > 0 && p < TotalPages(|urls|, k)
    ensures PageStart(p, k) <= PageEnd(p, k, |urls|) <= |urls|
    ensures PageCameras(urls, p, k) == urls[PageStart(p, k)..PageEnd(p, k, |urls|)]
  {
    PageBounds(|urls|, k, p);
  }

  /** With no cameras there are no pages, and page 0 is empty. */
  lemma NoCamerasEmptyPage<T>(urls: seq<T>, k: nat, choice: nat)
    requires k > 0 && urls == []
    ensures TotalPages(|urls|, k) == 0
    ensures PageCameras(urls, CurrentPage(TotalPages(|urls|, k), choice), k) == []
  {
  }

  lemma MulMono(a: nat, b: nat, k: nat)
    requires a <= b
    ensures a * k <= b * k
  {
  }

  /** Camera `i` lies in slot `i / k` of width `k`. */
  lemma DivSlot(i: nat, k: nat)
    requires k > 0
    ensures (i / k) * k <= i < (i / k) * k + k
  {
    assert i == (i / k) * k + i % k;
  }

  /** Slots of width `k` do not overlap. */
  lemma SlotUnique(i: nat, k: nat, p: nat, q: nat)
    requires k > 0 && p * k <= i < p * k + k && q * k <= i < q * k + k
    ensures p == q
  {
    if p < q {
      assert (p + 1) * k == p * k + k;
      MulMono(p + 1, q, k);
    } else if q < p {
      assert (q + 1) * k == q * k + k;
      MulMono(q + 1, p, k);
    }
  }

  /** Camera `i` is on page `i / k`, and on no other page. */
  lemma PageOf(n: nat, k: nat, i: nat, p: nat)
    requires k > 0 && i < n
    ensures i / k < TotalPages(n, k)
    ensures PageStart(i / k, k) <= i < PageEnd(i / k, k, n)
    ensures PageStart(p, k) <= i < PageEnd(p, k, n) ==> p == i / k
  {
    var t, q := TotalPages(n, k), i / k;
    DivSlot(i, k);
    assert n <= t * k;
    if q >= t {
      MulMono(t, q, k);
    }
    assert PageEnd(q, k, n) == Min(q * k + k, n);
    if PageStart(p, k) <= i < PageEnd(p, k, n) {
      assert p * k <= i < p * k + k;
      SlotUnique(i, k, p, q);
    }
  }

  /** Consecutive pages meet, and the last page ends at the end of the list. */
  lemma PagesAdjacent(n: nat, k: nat, p: nat)
    requires k > 0 && p < TotalPages(n, k)
    ensures p + 1 < TotalPages(n, k) ==> PageEnd(p, k, n) == PageStart(p + 1, k)
    ensures p + 1 == TotalPages(n, k) ==> PageEnd(p, k, n) == n
  {
    var t := TotalPages(n, k);
    if p + 1 < t {
      assert (p + 1) * k <= (t - 1) * k;
      assert p * k + k == (p + 1) * k;
    } else {
      assert p * k + k == t * k;
    }
  }

  /** The pages from `p` on, one after the other. */
  function PagesFrom<T>(urls: seq<T>, k: nat, p: nat): seq<T>
    requires k > 0
    decreases TotalPages(|urls|, k) - p
  {
    if p >= TotalPages(|urls|, k) then [] else PageCameras(urls, p, k) + PagesFrom(urls, k, p + 1)
  }

  /** Read page by page, the pages give back the whole camera list, in order: every camera
      is shown on exactly one page. */
  lemma PagesPartition<T>(urls: seq<T>, k: nat)
    requires k > 0
    ensures PagesFrom(urls, k, 0) == urls
  {
    if TotalPages(|urls|, k) > 0 {
      PagesFromSuffix(urls, k, 0);
    }
  }

  lemma {:induction false} PagesFromSuffix<T>(urls: seq<T>, k: nat, p: nat)
    requires k > 0 && p < TotalPages(|urls|, k)
    ensures PageStart(p, k) <= |urls|
    ensures PagesFrom(urls, k, p) == urls[PageStart(p, k)..]
    decreases TotalPages(|urls|, k) - p
  {
    var n := |urls|;
    PageCamerasAre(urls, p, k);
    PagesAdjacent(n, k, p);
    PageBounds(n, k, p);
    var a, b := PageStart(p, k), PageEnd(p, k, n);
    if p + 1 < TotalPages(n, k) {
      PagesFromSuffix(urls, k, p + 1);
      assert urls[a..b] + urls[b..] == urls[a..];
    } else {
      assert urls[a..b] + [] == urls[a..];
    }
  }

  /** `rows_needed = (len(current_cameras) + cols - 1) // cols`: the fewest rows of `cols`
      cells that hold `len` cameras. */
  function RowsNeeded(len: nat, cols: nat): (rows: nat)
    requires cols > 0
    ensures rows * cols >= len
    ensures rows > 0 ==> (rows - 1) * cols < len
  {
    var q := (len + cols - 1) / cols;
    assert len + cols - 1 == q * cols + (len + cols - 1) % cols;
    q
  }

  /** A slice of at most `cols * cols` cameras fits in `cols` rows. */
  lemma RowsAtMostCols(len: nat, cols: nat)
    requires cols > 0 && len <= cols * cols
    ensures RowsNeeded(len, cols) <= cols
  {
    var rows := RowsNeeded(len, cols);
    if rows > cols {
      MulMono(cols, rows - 1, cols);
    }
  }

  /** A page of a view mode never needs more rows than the grid is wide. */
  lemma RowsFitGrid(m: ViewMode, n: nat, p: nat)
    requires p < TotalPages(n, CamerasPerPage(m))
    ensures RowsNeeded(PageEnd(p, CamerasPerPage(m), n) - PageStart(p, CamerasPerPage(m)), Cols(m)) <= Cols(m)
  {
    PageBounds(n, CamerasPerPage(m), p);
    RowsAtMostCols(PageEnd(p, CamerasPerPage(m), n) - PageStart(p, CamerasPerPage(m)), Cols(m));
  }

  /** The grid loop of `main()`: row by row and column by column it computes
      `camera_idx = row * cols + col_idx` and shows camera `start_idx + camera_idx` when
      `camera_idx < len(current_cameras)`, an empty cell otherwise. `shown` lists the
      global indices shown, in order, and `blanks` counts the empty cells. */
  method GridCells(start: nat, len: nat, cols: nat) returns (shown: seq<nat>, blanks: nat)
    requires cols > 0
    ensures |shown| == len
    ensures forall j :: 0 <= j < len ==> shown[j] == start + j
    ensures blanks == RowsNeeded(len, cols) * cols - len
    ensures blanks < cols
  {
    var rows := RowsNeeded(len, cols);
    shown, blanks := [], 0;
    var row := 0;
    while row < rows
      invariant row <= rows
      invariant |shown| == Min(row * cols, len)
      invariant forall j :: 0 <= j < |shown| ==> shown[j] == start + j
      invariant blanks == row * cols - |shown|
    {
      var col := 0;
      while col < cols
        invariant col <= cols
        invariant |shown| == Min(row * cols + col, len)
        invariant forall j :: 0 <= j < |shown| ==> shown[j] == start + j
        invariant blanks == row * cols + col - |shown|
      {
        var cameraIdx := row * cols + col;
        if cameraIdx < len {
          shown := shown + [start + cameraIdx];
        } else {
          blanks := blanks + 1;
        }
        col := col + 1;
      }
      assert row * cols + cols == (row + 1) * cols;
      row := row + 1;
    }
  }
}
