/**
 * The arithmetic and naming decisions inside the object-list actions
 * (objects/actions.js), separated from the backend calls, timers and
 * downloads around them: the sort-order toggle, the presigned-link expiry,
 * the pseudo-progress of a deletion and the list entry it removes, the names
 * of zip entries, the size of a bulk download and the size statistics of a
 * logging session.
 */
module Objects {
  import opened Strings
  import opened Js
  import opened Seqs
  import opened Optional

  /** One entry of the object list: a name relative to the current prefix, its size in bytes. */
  datatype ObjectInfo = ObjectInfo(name: string, size: nat, lastModified: string)

  // ---------------------------------------------------------------------------
  // sortObjects
  // ---------------------------------------------------------------------------

  const ByName := "name"
  const BySize := "size"
  const ByLastModified := "last-modified"

  predicate IsSortKey(key: string) {
    key == ByName || key == BySize || key == ByLastModified
  }

  /** The slice of the store `sortObjects` reads. */
  datatype ListState = ListState(
    list: seq<ObjectInfo>,
    sortBy: string,
    sortOrder: bool,
    marker: JsValue,
    isTruncated: JsValue)

  /** The `setList(objects, err, marker, isTruncated)` action. */
  datatype SetListAction = SetList(objects: seq<ObjectInfo>, err: JsValue, marker: JsValue, isTruncated: JsValue)

  /** The three actions one `sortObjects` call dispatches. */
  datatype SortDispatch = SortDispatch(sortBy: string, sortOrder: bool, setList: SetListAction)

  /**
   * The sort functions of the utilities module, whose bodies are not part of
   * this model: key, list, ascending flag to the sorted list.
   */
  type Sorter = (string, seq<ObjectInfo>, bool) -> seq<ObjectInfo>

  /** The new order: the opposite when the same column is chosen again, ascending for a new one. */
  function NextSortOrder(currentKey: string, currentOrder: bool, chosenKey: string): (order: bool)
    ensures currentKey == chosenKey ==> order != currentOrder
    ensures currentKey != chosenKey ==> order
  {
    if currentKey == chosenKey then !currentOrder else true
  }

  /** Choosing a column twice in a row restores the order it had before. */
  lemma SortOrderToggleTwice(key: string, order: bool)
    ensures NextSortOrder(key, NextSortOrder(key, order, key), key) == order
  {
  }

  /** The list `sortObjects` hands to `setList`. */
  function SortedList(key: string, list: seq<ObjectInfo>, order: bool, sorter: Sorter): (r: seq<ObjectInfo>)
    ensures !IsSortKey(key) ==> r == list
    ensures IsSortKey(key) ==> r == sorter(key, list, order)
  {
    if key == ByName then sorter(ByName, list, order)
    else if key == BySize then sorter(BySize, list, order)
    else if key == ByLastModified then sorter(ByLastModified, list, order)
    else list
  }

  /**
   * `sortObjects` as written: `setList` is called with three arguments, so
   * the marker lands in `err`, the truncation flag in `marker`, and
   * `isTruncated` is left undefined.
   */
  function SortObjectsAsWritten(s: ListState, key: string, sorter: Sorter): (d: SortDispatch)
    ensures d.sortBy == key
    ensures d.sortOrder == SortObjects(s, key, sorter).sortOrder
    ensures d.setList.objects == SortObjects(s, key, sorter).setList.objects
    ensures d.setList.err == s.marker && d.setList.marker == s.isTruncated
    ensures d.setList.isTruncated == Undefined
  {
    var order := NextSortOrder(s.sortBy, s.sortOrder, key);
    SortDispatch(key, order, SetList(SortedList(key, s.list, order, sorter), s.marker, s.isTruncated, Undefined))
  }

  /** After sorting a truncated listing, the action no longer says that more objects follow. */
  lemma SortForgetsTruncation(sorter: Sorter)
    ensures var s := ListState([], "", false, Str("next-page"), Bool(true));
      && SortObjectsAsWritten(s, ByName, sorter).setList.isTruncated == Undefined
      && SortObjectsAsWritten(s, ByName, sorter).setList.marker == Bool(true)
  {
  }

  /**
   * `sortObjects` with the listing's marker and truncation flag passed in
   * their own places and no error.
   */
  function SortObjects(s: ListState, key: string, sorter: Sorter): (d: SortDispatch)
    ensures d.sortBy == key
    ensures s.sortBy != key ==> d.sortOrder
    ensures s.sortBy == key ==> d.sortOrder == !s.sortOrder
    ensures !IsSortKey(key) ==> d.setList.objects == s.list
    ensures IsSortKey(key) ==> d.setList.objects == sorter(key, s.list, d.sortOrder)
    ensures d.setList.err == Bool(false)
    ensures d.setList.marker == s.marker && d.setList.isTruncated == s.isTruncated
  {
    var order := NextSortOrder(s.sortBy, s.sortOrder, key);
    SortDispatch(key, order, SetList(SortedList(key, s.list, order, sorter), Bool(false), s.marker, s.isTruncated))
  }

  // ---------------------------------------------------------------------------
  // shareObject
  // ---------------------------------------------------------------------------

  const SecondsPerMinute := 60
  const SecondsPerHour := 60 * 60
  const SecondsPerDay := 24 * 60 * 60

  /** The lifetime, in seconds, of a shared link valid for the given days, hours and minutes. */
  function ShareExpiry(days: int, hours: int, minutes: int): (seconds: int)
    ensures seconds % SecondsPerMinute == 0
    ensures days >= 0 && hours >= 0 && minutes >= 0 ==> seconds >= 0
  {
    days * 24 * 60 * 60 + hours * 60 * 60 + minutes * 60
  }

  /** Days, hours and minutes of a lifetime in whole minutes: the inverse of `ShareExpiry`. */
  function ExpiryParts(seconds: nat): (parts: (nat, nat, nat))
    ensures parts.1 < 24 && parts.2 < 60
  {
    (seconds / SecondsPerDay, (seconds % SecondsPerDay) / SecondsPerHour, (seconds % SecondsPerHour) / SecondsPerMinute)
  }

  /** Splitting a lifetime at whole days. */
  lemma DayParts(days: nat, inDay: nat)
    requires inDay < 86400
    ensures (days * 86400 + inDay) / 86400 == days
    ensures (days * 86400 + inDay) % 86400 == inDay
  {
  }

  /** Splitting a lifetime at whole hours. */
  lemma HourParts(hours: nat, inHour: nat)
    requires inHour < 3600
    ensures (hours * 3600 + inHour) / 3600 == hours
    ensures (hours * 3600 + inHour) % 3600 == inHour
  {
  }

  /** The form's days, hours (under 24) and minutes (under 60) are recovered from the expiry. */
  lemma ExpiryRoundTrip(days: nat, hours: nat, minutes: nat)
    requires hours < 24 && minutes < 60
    ensures ExpiryParts(ShareExpiry(days, hours, minutes)) == (days, hours, minutes)
  {
    var inHour := minutes * 60;
    var inDay := hours * 3600 + inHour;
    var s := ShareExpiry(days, hours, minutes);
    assert s == days * 86400 + inDay;
    DayParts(days, inDay);
    HourParts(hours, inHour);
    assert s == (days * 24 + hours) * 3600 + inHour;
    HourParts(days * 24 + hours, inHour);
    assert inHour / 60 == minutes;
  }

  /** A longer lifetime in any unit gives a later expiry. */
  lemma ExpiryMonotone(days: int, hours: int, minutes: int, days': int, hours': int, minutes': int)
    requires days <= days' && hours <= hours' && minutes <= minutes'
    ensures ShareExpiry(days, hours, minutes) <= ShareExpiry(days', hours', minutes')
  {
  }

  // ---------------------------------------------------------------------------
  // deleteObject
  // ---------------------------------------------------------------------------

  /** The queue's total for a deletion, and the progress it reports on success. */
  const DeleteTotal := 100
  /** The pseudo-progress stops growing once it reaches this value. */
  const ProgressCeiling := 80
  const ProgressStep := 10

  /** A value the pseudo-progress counter can hold while the removal is pending. */
  predicate PendingProgress(loaded: int) {
    0 <= loaded <= ProgressCeiling && loaded % ProgressStep == 0
  }

  /** One timer tick: grow by ten while below eighty. */
  function ProgressTick(loaded: int): (r: int)
    ensures PendingProgress(loaded) ==> PendingProgress(r)
    ensures r >= loaded
    ensures r == loaded <==> loaded >= ProgressCeiling
  {
    if loaded < ProgressCeiling then loaded + ProgressStep else loaded
  }

  /** The counter after `ticks` timer ticks, starting from 0. */
  function ProgressAfter(ticks: nat): (loaded: int)
    ensures PendingProgress(loaded)
  {
    if ticks == 0 then 0 else ProgressTick(ProgressAfter(ticks - 1))
  }

  /** The counter climbs in steps of ten and then stays at eighty. */
  lemma {:induction false} ProgressAfterClosedForm(ticks: nat)
    ensures ProgressAfter(ticks) == if ticks * ProgressStep < ProgressCeiling then ticks * ProgressStep else ProgressCeiling
  {
    if ticks > 0 {
      ProgressAfterClosedForm(ticks - 1);
    }
  }

  /** More ticks never report less progress. */
  lemma {:induction false} ProgressMonotone(i: nat, j: nat)
    requires i <= j
    ensures ProgressAfter(i) <= ProgressAfter(j)
    decreases j - i
  {
    if i < j {
      ProgressMonotone(i, j - 1);
    }
  }

  /**
   * The values a deletion reports to the progress queue: one per timer tick,
   * then 100 once the backend confirms the removal. A failed removal never
   * stops the timer, so it only ever reports tick values.
   */
  function DeleteReports(ticks: nat, removed: bool): (r: seq<int>)
    ensures |r| == (if removed then ticks + 1 else ticks)
    ensures forall i :: 0 <= i < ticks ==> r[i] == ProgressAfter(i + 1)
    ensures forall i :: 0 <= i < ticks ==> PendingProgress(r[i])
    ensures removed ==> r[ticks] == DeleteTotal
    ensures forall i, j :: 0 <= i <= j < |r| ==> r[i] <= r[j]
  {
    var ticking := seq(ticks, i requires 0 <= i => ProgressAfter(i + 1));
    assert forall i, j :: 0 <= i <= j < ticks ==> ticking[i] <= ticking[j] by {
      forall i, j | 0 <= i <= j < ticks ensures ticking[i] <= ticking[j] {
        ProgressMonotone(i + 1, j + 1);
      }
    }
    if removed then ticking + [DeleteTotal] else ticking
  }

  /** The list entry a completed deletion removes: a nested object takes its top-level folder with it. */
  function RemovalKey(entry: string): (key: string)
    ensures IsPrefix(key, entry)
    ensures ('/' in key) <==> ('/' in entry)
    ensures '/' !in entry ==> key == entry
    ensures '/' in entry ==> key[|key| - 1] == '/' && '/' !in key[..|key| - 1]
  {
    ContainsChar(entry, '/');
    if Contains(entry, "/") then
      var top := BeforeFirst(entry, '/');
      assert entry[..|top| + 1] == top + "/";
      top + "/"
    else entry
  }

  /** A removal key names its own entry: removing by it again changes nothing. */
  lemma RemovalKeyIdempotent(entry: string)
    ensures RemovalKey(RemovalKey(entry)) == RemovalKey(entry)
  {
    var key := RemovalKey(entry);
    if '/' in entry {
      var top := key[..|key| - 1];
      assert key == top + "/" + "";
      BeforeFirstOfSeparated(top, '/', "");
      ContainsChar(key, '/');
    }
  }

  /** Objects in the same top-level folder remove the same entry. */
  lemma RemovalKeySameFolder(folder: string, a: string, b: string)
    requires '/' !in folder
    ensures RemovalKey(folder + "/" + a) == RemovalKey(folder + "/" + b) == folder + "/"
  {
    BeforeFirstOfSeparated(folder, '/', a);
    BeforeFirstOfSeparated(folder, '/', b);
    ContainsChar(folder + "/" + a, '/');
    ContainsChar(folder + "/" + b, '/');
    assert (folder + "/" + a)[|folder|] == '/';
    assert (folder + "/" + b)[|folder|] == '/';
  }

  // ---------------------------------------------------------------------------
  // downloadObjectAsZip
  // ---------------------------------------------------------------------------

  /** The pseudo-bucket listing the user's top-level folders. */
  const HomeBucket := "Home"
  /** A bulk download above this many bytes warns about browser time-outs. */
  const LargeDownloadBytes := 150000000
  const BytesPerMB := 1000000

  /** The name an object gets inside the zip: slashes become underscores, behind the bucket's name. */
  function ZipEntryName(bucket: string, objectName: string): (name: string)
    ensures var offset := if bucket == HomeBucket then 0 else |bucket| + 1;
      && |name| == offset + |objectName|
      && (bucket != HomeBucket ==> IsPrefix(bucket + "_", name))
      && forall i :: 0 <= i < |objectName| ==>
           name[offset + i] == (if objectName[i] == '/' then '_' else objectName[i])
    ensures '/' !in bucket ==> '/' !in name
  {
    var flat := ReplaceAll(objectName, '/', '_');
    if bucket == HomeBucket then flat
    else
      var name := bucket + "_" + flat;
      assert name[..|bucket| + 1] == bucket + "_";
      name
  }

  /** Flattening loses the folder structure: two different objects can share an entry. */
  lemma ZipEntryNamesCollide(bucket: string)
    ensures ZipEntryName(bucket, "a/b") == ZipEntryName(bucket, "a_b")
  {
    var x, y := ZipEntryName(bucket, "a/b"), ZipEntryName(bucket, "a_b");
    assert |x| == |y|;
    assert forall i :: 0 <= i < |x| ==> x[i] == y[i];
  }

  /** The name of the saved archive. */
  function ZipArchiveName(bucket: string): (name: string)
    ensures IsSuffix(".zip", name) && IsPrefix(bucket, name)
    ensures |name| == |bucket| + 4
  {
    var name := bucket + ".zip";
    assert name[|name| - 4..] == ".zip";
    name
  }

  /** A fetched object: its full name and the size of the blob the download returned. */
  datatype Fetched = Fetched(objectName: string, blobSize: nat)

  /** `name` is the entry written for a fetched object. */
  predicate WrittenFor(bucket: string, f: Fetched, name: string) {
    f.blobSize != 0 && name == ZipEntryName(bucket, f.objectName)
  }

  /** The zip entries written for the fetched objects: empty blobs are skipped. */
  function ZipEntries(bucket: string, fetched: seq<Fetched>): (names: seq<string>)
    ensures |names| <= |fetched|
    ensures forall f :: f in fetched && f.blobSize != 0 ==> ZipEntryName(bucket, f.objectName) in names
    ensures forall n :: n in names ==> exists f :: f in fetched && WrittenFor(bucket, f, n)
  {
    if |fetched| == 0 then []
    else
      var rest := ZipEntries(bucket, fetched[1..]);
      assert fetched == [fetched[0]] + fetched[1..];
      if fetched[0].blobSize != 0 then
        assert WrittenFor(bucket, fetched[0], ZipEntryName(bucket, fetched[0].objectName));
        [ZipEntryName(bucket, fetched[0].objectName)] + rest
      else rest
  }

  /**
   * The sizes of the object stats, summed left to right as `_.reduce` does,
   * and whether the download counts as large.
   */
  method TotalQueueSize(statSizes: seq<nat>) returns (total: nat, large: bool)
    ensures total == Sum(statSizes)
    ensures large <==> total > LargeDownloadBytes
    ensures forall i :: 0 <= i < |statSizes| ==> statSizes[i] <= total
  {
    total := 0;
    var i := 0;
    while i < |statSizes|
      invariant 0 <= i <= |statSizes|
      invariant total == Sum(statSizes[..i])
    {
      SumAppend(statSizes[..i], statSizes[i]);
      assert statSizes[..i + 1] == statSizes[..i] + [statSizes[i]];
      total := total + statSizes[i];
      i := i + 1;
    }
    assert statSizes[..i] == statSizes;
    forall k | 0 <= k < |statSizes| ensures statSizes[k] <= total {
      ElementAtMostSum(statSizes, k);
    }
    large := total > LargeDownloadBytes;
  }

  /**
   * The size shown in the large-download warning: the total in megabytes,
   * rounded to the nearest whole number (halves up, as `Math.round` does for
   * non-negative values); nothing when the download is not large.
   */
  function LargeDownloadWarning(total: nat): (mb: Option<nat>)
    ensures mb.Some? <==> total > LargeDownloadBytes
    ensures mb.Some? ==> mb.value * BytesPerMB - BytesPerMB / 2 <= total < mb.value * BytesPerMB + BytesPerMB / 2
    ensures mb.Some? ==> mb.value >= LargeDownloadBytes / BytesPerMB
  {
    if total > LargeDownloadBytes then Some((total + BytesPerMB / 2) / BytesPerMB) else None
  }

  /**
   * The totals the download queue is seeded with: the whole size on the first
   * entry, zero on the others.
   */
  function QueueTotals(entries: nat, total: nat): (totals: seq<nat>)
    ensures |totals| == entries
    ensures entries > 0 ==> totals[0] == total
    ensures forall i :: 0 < i < |totals| ==> totals[i] == 0
    ensures Sum(totals) == if entries == 0 then 0 else total
  {
    if entries == 0 then [] else [total] + Zeros(entries - 1)
  }

  function Zeros(n: nat): (z: seq<nat>)
    ensures |z| == n && Sum(z) == 0
    ensures forall i :: 0 <= i < n ==> z[i] == 0
  {
    if n == 0 then [] else [0] + Zeros(n - 1)
  }

  // ---------------------------------------------------------------------------
  // listSessionMeta
  // ---------------------------------------------------------------------------

  /** A bound that may be one of JavaScript's infinities, as the running minimum and maximum start. */
  datatype Bound = NegInfinity | Finite(value: int) | PosInfinity

  predicate Below(n: int, b: Bound) {
    b.PosInfinity? || (b.Finite? && n < b.value)
  }

  predicate Above(n: int, b: Bound) {
    b.NegInfinity? || (b.Finite? && n > b.value)
  }

  /** The size figures of a logging session before they are rounded to megabytes. */
  datatype SizeStats = SizeStats(count: nat, lowest: Bound, highest: Bound, totalSize: nat)

  /** The objects of a listing that the log-file test accepts, in listing order. */
  function LogFiles(objects: seq<ObjectInfo>, isLogfile: string -> bool): (logs: seq<ObjectInfo>)
    ensures forall o :: o in logs <==> o in objects && isLogfile(o.name)
    ensures forall o :: multiset(logs)[o] == (if isLogfile(o.name) then multiset(objects)[o] else 0)
    ensures IsSubsequence(logs, objects)
  {
    Filter(objects, (o: ObjectInfo) => isLogfile(o.name))
  }

  /**
   * The smallest size, largest size and total size, scanned from the last
   * element to the first as the session summary does.
   */
  method SizeRange(sizes: seq<nat>) returns (lowest: Bound, highest: Bound, total: nat)
    ensures total == Sum(sizes)
    ensures |sizes| == 0 ==> lowest == PosInfinity && highest == NegInfinity
    ensures |sizes| > 0 ==> lowest.Finite? && lowest.value in sizes
    ensures |sizes| > 0 ==> highest.Finite? && highest.value in sizes
    ensures forall k :: 0 <= k < |sizes| ==> lowest.Finite? && lowest.value <= sizes[k]
    ensures forall k :: 0 <= k < |sizes| ==> highest.Finite? && sizes[k] <= highest.value
  {
    lowest, highest, total := PosInfinity, NegInfinity, 0;
    ghost var lo, hi := 0, 0;
    var i := |sizes|;
    while i > 0
      invariant 0 <= i <= |sizes|
      invariant total == Sum(sizes[i..])
      invariant i == |sizes| ==> lowest == PosInfinity && highest == NegInfinity
      invariant i < |sizes| ==> i <= lo < |sizes| && lowest == Finite(sizes[lo])
      invariant i < |sizes| ==> i <= hi < |sizes| && highest == Finite(sizes[hi])
      invariant forall k :: i <= k < |sizes| ==> lowest.Finite? && lowest.value <= sizes[k]
      invariant forall k :: i <= k < |sizes| ==> highest.Finite? && sizes[k] <= highest.value
    {
      i := i - 1;
      var size := sizes[i];
      assert sizes[i..] == [size] + sizes[i + 1..];
      total := total + size;
      if Below(size, lowest) {
        lowest, lo := Finite(size), i;
      }
      if Above(size, highest) {
        highest, hi := Finite(size), i;
      }
    }
    assert sizes[0..] == sizes;
  }

  /** The count and size range of the log files among a listing's objects. */
  method SessionSizeStats(objects: seq<ObjectInfo>, isLogfile: string -> bool) returns (stats: SizeStats)
    ensures stats.count == |LogFiles(objects, isLogfile)|
    ensures stats.totalSize == Sum(SizesOf(LogFiles(objects, isLogfile)))
    ensures stats.count == 0 ==> stats.lowest == PosInfinity && stats.highest == NegInfinity
    ensures stats.count > 0 ==> stats.lowest.Finite? && stats.lowest.value in SizesOf(LogFiles(objects, isLogfile))
    ensures stats.count > 0 ==> stats.highest.Finite? && stats.highest.value in SizesOf(LogFiles(objects, isLogfile))
    ensures forall o :: o in LogFiles(objects, isLogfile) ==>
      stats.lowest.Finite? && stats.highest.Finite? && stats.lowest.value <= o.size <= stats.highest.value
  {
    var logs := LogFiles(objects, isLogfile);
    var sizes := SizesOf(logs);
    var lowest, highest, total := SizeRange(sizes);
    stats := SizeStats(|logs|, lowest, highest, total);
    forall o | o in logs
      ensures stats.lowest.Finite? && stats.highest.Finite? && stats.lowest.value <= o.size <= stats.highest.value
    {
      var k :| 0 <= k < |logs| && logs[k] == o;
      assert sizes[k] == o.size;
    }
  }

  /** The sizes of a sequence of objects. */
  function SizesOf(objects: seq<ObjectInfo>): (sizes: seq<nat>)
    ensures |sizes| == |objects|
    ensures forall i :: 0 <= i < |objects| ==> sizes[i] == objects[i].size
  {
    seq(|objects|, i requires 0 <= i < |objects| => objects[i].size)
  }
}
