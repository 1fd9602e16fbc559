/** Paged export: awo/ioport/importer.go over the page options of awo/driver/repository.go. */
module Export {

  /** ResolveOptions: page sizes are clamped to 200 and default to 20. */
  function ResolvedSize(size: int): (r: int)
    ensures 1 <= r <= 200 && (1 <= size <= 200 ==> r == size) && (size > 200 ==> r == 200) && (size < 1 ==> r == 20)
  {
    var capped := if size > 200 then 200 else size;
    if capped < 1 then 20 else capped
  }

  function Min(a: int, b: int): int
  {
    if a < b then a else b
  }

  /** One page of a fixed, ordered result set. */
  function Page<T>(records: seq<T>, page: int, size: int): (r: seq<T>)
    requires page >= 1
  {
    var s := ResolvedSize(size);
    var from := Min((page - 1) * s, |records|);
    records[from..Min(from + s, |records|)]
  }

  /** The size the loop compares with; Export replaces non-positive sizes by 500. */
  function RequestedSize(size: int): int
  {
    if size <= 0 then 500 else size
  }

  /** Where one page starts. */
  lemma PageStart(k: nat, s: int, n: int)
    requires s >= 1 && k * s <= n
    ensures (k + 1) * s == k * s + s && Min(k * s, n) == k * s
  { }

  /** The export loop. It always terminates. It writes every record once and in order exactly when
      the page size is between 1 and 200 or there are at most 200 records; otherwise, and so also
      with the default of 500, the clamp makes it stop after the first 200. */
  method ExportAll<T>(records: seq<T>, size: int) returns (written: seq<T>)
    ensures written == if 1 <= size <= 200 then records else records[..Min(|records|, 200)]
    ensures written == records <==> (1 <= size <= 200 || |records| <= 200)
  {
    var pageSize, page := RequestedSize(size), 1;
    ghost var s := ResolvedSize(pageSize);
    written := [];
    while true
      invariant page >= 1 && (page - 1) * s <= |records| && written == records[..(page - 1) * s]
      invariant pageSize > 200 ==> page == 1
      decreases |records| - (page - 1) * s + 1
    {
      PageStart(page - 1, s, |records|);
      var batch := Page(records, page, pageSize);
      written := written + batch;
      if |batch| < pageSize { break; }
      page := page + 1;
    }
    assert |written| == if 1 <= size <= 200 then |records| else Min(|records|, 200);
  }
}
