/** The WAL -> L1 -> NAS protocol as a state machine over its file-system and network steps.

    Any number of processes run at once: compactions (`compact_segment`, the runner's and the
    backfill's), cleanup workers (a timed-out one goes on while the next starts), garbage
    collectors and retry-queue drains.  Their steps interleave freely and each may crash
    between any two steps. */
module Durability {
  import opened Basics
  import opened Sorting

  /** A decoded WAL line: its `ts_utc` and everything else. */
  datatype Record = Record(ts: int, data: string)
  type Rows = seq<Record>

  /** A sealed WAL segment.  Its Parquet path is made of the same components, so the segment
      also names the one local L1 file and the two NAS keys that belong to it. */
  datatype Segment = Segment(exchange: string, channel: string, symbol: string,
                             date: string, ts: string, node: string)

  /** `build_nas_key` (flat) and `build_legacy_nas_key` (the `l1/` alias). */
  datatype Key = Flat(seg: Segment) | Legacy(seg: Segment)

  /** SHA-256 as an injective digest. */
  datatype Digest = Digest(of: Rows)
  datatype Object = Object(etag: string, sha: Option<Digest>, content: Rows)
  datatype Head = Head(etag: string, sha: Option<Digest>, length: nat)
  datatype Item = Item(key: Key, content: Rows)

  /** What the ingester may seal under each path, the deterministic conversion of a segment to
      its Parquet file (INV-3), and the byte size of a file.  A reconnect within a five-minute
      bucket closes the ingester and opens the same path again, so one path may be sealed more
      than once, with the same or other records. */
  datatype Config = Config(may: (Segment, Rows) -> bool, parquet: Rows -> Rows, size: Rows -> nat)
  datatype Piece = Piece(seg: Segment, rows: Rows)

  const GRACE_SECONDS := 86400
  const ARCHIVE_FAILED_GRACE_SECONDS := 86400 * 7

  // ---------------------------------------------------------------- state

  /** Where a process stands between two steps, with what it remembers. */
  datatype Proc =
    | Checked(seg: Segment, present: bool)             // after `parquet_path.exists()`
    | Loaded(seg: Segment, rows: Rows)                 // sealed file read, temp file written
    | Written(seg: Segment)                            // Parquet renamed into place
    | Hashed(seg: Segment, digest: Digest)             // put_l1 hashed the local file
    | Uploading(seg: Segment, digest: Digest)          // HEAD said: upload
    | Committed(seg: Segment)                          // PUT acknowledged
    | Headed(seg: Segment, key: Key, head: Head, sweep: bool)
    | Verified(seg: Segment, key: Key, head: Head, sweep: bool)
    | Guarded(seg: Segment, key: Key, sweep: bool)
    | Marking(seg: Segment)                            // lineage written, marker next
    | Aged(seg: Segment)                               // GC saw the marker past its grace
    | Unlinked(seg: Segment)                           // GC is done with the sealed file
    | Draining(item: Item)                             // retry queue: HEAD said upload

  datatype State = State(
    sealed: map<Segment, Rows>,
    marker: map<Segment, int>,
    local: map<Segment, Rows>,
    nas: map<Key, Object>,
    queue: set<Item>,
    now: int,
    procs: map<nat, Proc>,
    // history: every path and every piece ever sealed, and when each path was first marked
    everSealed: set<Segment>,
    history: set<Piece>,
    firstMarked: map<Segment, int>)

  datatype Step =
    | Seal(seg: Segment, rows: Rows)
    | Tick(dt: nat)
    | Crash(p: nat)
    | Compact(p: nat, compact: CompactStep)
    | Put(p: nat, put: PutStep)
    | Promote(p: nat, promote: PromoteStep)
    | Collect(p: nat, collect: CollectStep)
    | Drain(p: nat, drain: DrainStep)

  /** `compact_segment`; `Start` is the runner picking up a segment some earlier scan listed. */
  datatype CompactStep = Start(seg: Segment) | Skip | Load | Rename | Touch
  /** `put_l1` and `put_streaming`; `GiveUp` is any exception `_put_l1_nas` swallows. */
  datatype PutStep = Hash | HeadForPut | Upload(etag: string) | Enqueue | GiveUp
  /** `promote_l1`, called after a PUT (`HeadFlat`) or by a cleanup sweep (`HeadLegacy`). */
  datatype PromoteStep = HeadFlat | HeadLegacy(seg: Segment) | Compare | Guard | Unlink
  /** `run_gc` and `run_gc_with_extension`; the latter goes on when an unlink fails (`Keep`). */
  datatype CollectStep = Look(seg: Segment) | UnlinkSealed | Keep | UnlinkMarker
  /** `RetryQueue.drain` on one item. */
  datatype DrainStep = Pick(item: Item) | Store(etag: string)

  function HeadOf(c: Config, o: Object): Head { Head(o.etag, o.sha, c.size(o.content)) }

  /** The first three checks of `promote_l1`: an absent hash is not compared. */
  predicate Matches(c: Config, head: Head, local: Rows) {
    && (head.sha.Some? ==> head.sha.value == Digest(local))
    && head.length == c.size(local)
  }

  /** The compaction's own put and promotion: every exception is swallowed by `_put_l1_nas`. */
  predicate InPut(q: Proc) {
    || q.Written? || q.Hashed? || q.Uploading? || q.Committed?
    || ((q.Headed? || q.Verified? || q.Guarded?) && !q.sweep)
  }

  predicate NeedsUpload(nas: map<Key, Object>, key: Key) { key !in nas || nas[key].sha.None? }

  function Stay(s: State, p: nat, q: Proc): State { s.(procs := s.procs[p := q]) }
  function Done(s: State, p: nat): State { s.(procs := s.procs - {p}) }

  predicate CanCompact(s: State, p: nat, a: CompactStep) {
    match a
    case Start(seg) => p !in s.procs && seg in s.everSealed
    case Skip => p in s.procs && s.procs[p].Checked? && s.procs[p].present
    case Load => p in s.procs && s.procs[p].Checked? && !s.procs[p].present && s.procs[p].seg in s.sealed
    case Rename => p in s.procs && s.procs[p].Loaded?
    case Touch => p in s.procs && s.procs[p].Marking?
  }

  function DoCompact(c: Config, s: State, p: nat, a: CompactStep): State
    requires CanCompact(s, p, a)
  {
    match a
    case Start(seg) => Stay(s, p, Checked(seg, seg in s.local))
    case Skip => Stay(s, p, Written(s.procs[p].seg))
    case Load => Stay(s, p, Loaded(s.procs[p].seg, s.sealed[s.procs[p].seg]))
    case Rename =>
      var q := s.procs[p];
      Stay(s.(local := s.local[q.seg := c.parquet(q.rows)]), p, Written(q.seg))
    case Touch =>
      var seg := s.procs[p].seg;
      Done(s.(marker := if seg in s.marker then s.marker else s.marker[seg := s.now],
              firstMarked := if seg in s.firstMarked then s.firstMarked else s.firstMarked[seg := s.now]), p)
  }

  predicate CanPut(s: State, p: nat, a: PutStep) {
    p in s.procs &&
    match a
    case Hash => s.procs[p].Written? && s.procs[p].seg in s.local
    case HeadForPut => s.procs[p].Hashed?
    case Upload(_) => s.procs[p].Uploading? && s.procs[p].seg in s.local
    case Enqueue => InPut(s.procs[p]) && s.procs[p].seg in s.local
    case GiveUp => InPut(s.procs[p])
  }

  function DoPut(s: State, p: nat, a: PutStep): State
    requires CanPut(s, p, a)
  {
    var q := s.procs[p];
    match a
    case Hash => Stay(s, p, Hashed(q.seg, Digest(s.local[q.seg])))
    case HeadForPut =>
      if NeedsUpload(s.nas, Flat(q.seg)) then Stay(s, p, Uploading(q.seg, q.digest))
      else if s.nas[Flat(q.seg)].sha == Some(q.digest) then Stay(s, p, Committed(q.seg))
      else Stay(s, p, Marking(q.seg))
    case Upload(etag) =>
      Stay(s.(nas := s.nas[Flat(q.seg) := Object(etag, Some(q.digest), s.local[q.seg])]), p, Committed(q.seg))
    case Enqueue => Stay(s.(queue := s.queue + {Item(Flat(q.seg), s.local[q.seg])}), p, Marking(q.seg))
    case GiveUp => Stay(s, p, Marking(q.seg))
  }

  predicate CanPromote(c: Config, s: State, p: nat, a: PromoteStep) {
    match a
    case HeadFlat => p in s.procs && s.procs[p].Committed? && Flat(s.procs[p].seg) in s.nas
    case HeadLegacy(seg) => p !in s.procs && Legacy(seg) in s.nas
    case Compare =>
      && p in s.procs && s.procs[p].Headed? && s.procs[p].seg in s.local
      && Matches(c, s.procs[p].head, s.local[s.procs[p].seg])
    case Guard =>
      && p in s.procs && s.procs[p].Verified? && s.procs[p].key in s.nas
      && s.nas[s.procs[p].key].etag == s.procs[p].head.etag
      && c.size(s.nas[s.procs[p].key].content) == s.procs[p].head.length
    case Unlink => p in s.procs && s.procs[p].Guarded? && s.procs[p].seg in s.local
  }

  /** After the unlink a cleanup worker is through; a compaction goes on to its marker. */
  function DoPromote(c: Config, s: State, p: nat, a: PromoteStep): State
    requires CanPromote(c, s, p, a)
  {
    match a
    case HeadFlat =>
      var seg := s.procs[p].seg;
      Stay(s, p, Headed(seg, Flat(seg), HeadOf(c, s.nas[Flat(seg)]), false))
    case HeadLegacy(seg) => Stay(s, p, Headed(seg, Legacy(seg), HeadOf(c, s.nas[Legacy(seg)]), true))
    case Compare =>
      var q := s.procs[p];
      Stay(s, p, Verified(q.seg, q.key, q.head, q.sweep))
    case Guard =>
      var q := s.procs[p];
      Stay(s, p, Guarded(q.seg, q.key, q.sweep))
    case Unlink =>
      var q := s.procs[p];
      var t := s.(local := s.local - {q.seg});
      if q.sweep then Done(t, p) else Stay(t, p, Marking(q.seg))
  }

  predicate CanCollect(s: State, p: nat, a: CollectStep) {
    match a
    case Look(seg) => p !in s.procs && seg in s.marker && s.now - s.marker[seg] >= GRACE_SECONDS
    case UnlinkSealed => p in s.procs && s.procs[p].Aged?
    case Keep => p in s.procs && s.procs[p].Aged?
    case UnlinkMarker => p in s.procs && s.procs[p].Unlinked?
  }

  function DoCollect(s: State, p: nat, a: CollectStep): State
    requires CanCollect(s, p, a)
  {
    match a
    case Look(seg) => Stay(s, p, Aged(seg))
    case UnlinkSealed =>
      var seg := s.procs[p].seg;
      Stay(s.(sealed := s.sealed - {seg}), p, Unlinked(seg))
    case Keep => Stay(s, p, Unlinked(s.procs[p].seg))
    case UnlinkMarker => Done(s.(marker := s.marker - {s.procs[p].seg}), p)
  }

  predicate CanDrain(s: State, p: nat, a: DrainStep) {
    match a
    case Pick(item) => p !in s.procs && item in s.queue
    case Store(_) => p in s.procs && s.procs[p].Draining?
  }

  function DoDrain(s: State, p: nat, a: DrainStep): State
    requires CanDrain(s, p, a)
  {
    match a
    case Pick(item) =>
      if NeedsUpload(s.nas, item.key) then Stay(s, p, Draining(item))
      else if s.nas[item.key].sha == Some(Digest(item.content)) then s.(queue := s.queue - {item})
      else s
    case Store(etag) =>
      var item := s.procs[p].item;
      Done(s.(nas := s.nas[item.key := Object(etag, Some(Digest(item.content)), item.content)],
              queue := s.queue - {item}), p)
  }

  /** `os.replace` onto the sealed path, whatever it holds. */
  function DoSeal(s: State, seg: Segment, rows: Rows): State {
    s.(sealed := s.sealed[seg := rows], everSealed := s.everSealed + {seg}, history := s.history + {Piece(seg, rows)})
  }

  predicate Enabled(c: Config, s: State, step: Step) {
    match step
    case Seal(seg, rows) => c.may(seg, rows)
    case Tick(_) => true
    case Crash(p) => p in s.procs
    case Compact(p, a) => CanCompact(s, p, a)
    case Put(p, a) => CanPut(s, p, a)
    case Promote(p, a) => CanPromote(c, s, p, a)
    case Collect(p, a) => CanCollect(s, p, a)
    case Drain(p, a) => CanDrain(s, p, a)
  }

  function Apply(c: Config, s: State, step: Step): State
    requires Enabled(c, s, step)
  {
    match step
    case Seal(seg, rows) => DoSeal(s, seg, rows)
    case Tick(dt) => s.(now := s.now + dt)
    case Crash(p) => Done(s, p)
    case Compact(p, a) => DoCompact(c, s, p, a)
    case Put(p, a) => DoPut(s, p, a)
    case Promote(p, a) => DoPromote(c, s, p, a)
    case Collect(p, a) => DoCollect(s, p, a)
    case Drain(p, a) => DoDrain(s, p, a)
  }

  // ---------------------------------------------------------------- runs

  predicate Possible(c: Config, s: State, steps: seq<Step>)
    decreases |steps|
  {
    steps == [] || (Enabled(c, s, steps[0]) && Possible(c, Apply(c, s, steps[0]), steps[1..]))
  }

  function Exec(c: Config, s: State, steps: seq<Step>): State
    requires Possible(c, s, steps)
    decreases |steps|
  {
    if steps == [] then s else Exec(c, Apply(c, s, steps[0]), steps[1..])
  }

  lemma {:induction false} ExecConcat(c: Config, s: State, a: seq<Step>, b: seq<Step>)
    requires Possible(c, s, a) && Possible(c, Exec(c, s, a), b)
    ensures Possible(c, s, a + b)
    ensures Exec(c, s, a + b) == Exec(c, Exec(c, s, a), b)
    decreases |a|
  {
    if a == [] {
      assert a + b == b;
    } else {
      ExecConcat(c, Apply(c, s, a[0]), a[1..], b);
      assert (a + b)[1..] == a[1..] + b;
    }
  }

  lemma ExecOne(c: Config, s: State, step: Step)
    requires Enabled(c, s, step)
    ensures Possible(c, s, [step]) && Exec(c, s, [step]) == Apply(c, s, step)
  {
    assert [step][1..] == [];
  }

  ghost predicate Truthful(nas: map<Key, Object>) {
    forall k :: k in nas && nas[k].sha.Some? ==> nas[k].sha.value == Digest(nas[k].content)
  }

  /** Nothing sealed or compacted yet; the bucket may hold anything with honest hashes. */
  ghost predicate Init(s: State) {
    && s.sealed == map[] && s.marker == map[] && s.local == map[] && s.queue == {}
    && s.procs == map[] && s.everSealed == {} && s.history == {} && s.firstMarked == map[]
    && Truthful(s.nas)
  }

  // ---------------------------------------------------------------- safety

  ghost predicate NasHas(c: Config, s: State, key: Key, rows: Rows) {
    key in s.nas && s.nas[key].content == c.parquet(rows)
  }

  ghost predicate OnNas(c: Config, s: State, seg: Segment, rows: Rows) {
    NasHas(c, s, Flat(seg), rows) || NasHas(c, s, Legacy(seg), rows)
  }

  /** The piece survives without its WAL file. */
  ghost predicate StoredPiece(c: Config, s: State, seg: Segment, rows: Rows) {
    (seg in s.local && s.local[seg] == c.parquet(rows)) || OnNas(c, s, seg, rows)
  }

  /** Every piece that may be sealed under the path is on NAS, or survives without a WAL file. */
  ghost predicate AllOnNas(c: Config, s: State, seg: Segment) {
    forall rows :: c.may(seg, rows) ==> OnNas(c, s, seg, rows)
  }

  ghost predicate Stored(c: Config, s: State, seg: Segment) {
    forall rows :: c.may(seg, rows) ==> StoredPiece(c, s, seg, rows)
  }

  /** RPO = 0: every piece ever sealed is in a WAL file, an L1 file or a NAS object that yields
      its Parquet file. */
  ghost predicate Durable(c: Config, s: State) {
    forall x :: x in s.history ==>
      || (x.seg in s.sealed && c.parquet(s.sealed[x.seg]) == c.parquet(x.rows))
      || StoredPiece(c, s, x.seg, x.rows)
  }

  /** No sealed file is gone earlier than 24 hours after its segment was first marked. */
  ghost predicate GraceKept(s: State) {
    forall seg :: seg in s.everSealed && seg !in s.sealed ==>
      seg in s.firstMarked && s.now - s.firstMarked[seg] >= GRACE_SECONDS
  }

  /** Only one Parquet file can come of the path, however often it is sealed. */
  ghost predicate Sole(c: Config, seg: Segment) {
    forall x, y :: c.may(seg, x) && c.may(seg, y) ==> c.parquet(x) == c.parquet(y)
  }

  /** The piece is on NAS where no upload replaces it: under the legacy key, which nothing
      writes, or under the flat key with a recorded hash. */
  ghost predicate PinnedPiece(c: Config, s: State, seg: Segment, rows: Rows) {
    NasHas(c, s, Legacy(seg), rows) || (NasHas(c, s, Flat(seg), rows) && s.nas[Flat(seg)].sha.Some?)
  }

  ghost predicate Pinned(c: Config, s: State, seg: Segment) {
    forall rows :: c.may(seg, rows) ==> PinnedPiece(c, s, seg, rows)
  }

  /** A legacy object without a recorded hash passes for the local file exactly when the sizes
      agree; the file must then be on NAS, there or under its flat key. */
  ghost predicate NoCollision(c: Config, s: State, seg: Segment) {
    forall rows :: c.may(seg, rows) && Legacy(seg) in s.nas && s.nas[Legacy(seg)].sha.None?
                   && c.size(s.nas[Legacy(seg)].content) == c.size(c.parquet(rows))
      ==> OnNas(c, s, seg, rows)
  }

  /** A path is safe when all that may be sealed under it is pinned on NAS, or when resealing
      cannot change its file and no legacy object passes for it. */
  ghost predicate SafePath(c: Config, s: State, seg: Segment) {
    Pinned(c, s, seg) || (Sole(c, seg) && NoCollision(c, s, seg))
  }

  ghost predicate SafePaths(c: Config, s: State) { forall seg :: SafePath(c, s, seg) }

  ghost predicate Known(c: Config, seg: Segment) { exists rows :: c.may(seg, rows) }

  ghost predicate SoleFile(c: Config, seg: Segment, file: Rows) {
    Known(c, seg) && forall rows :: c.may(seg, rows) ==> c.parquet(rows) == file
  }

  ghost predicate ProcInv(c: Config, s: State, q: Proc) {
    match q
    case Checked(seg, present) => present ==> Stored(c, s, seg)
    case Loaded(seg, rows) => c.may(seg, rows)
    case Written(seg) => Stored(c, s, seg)
    case Hashed(seg, d) => Stored(c, s, seg) && (Sole(c, seg) ==> SoleFile(c, seg, d.of))
    case Uploading(seg, d) => Stored(c, s, seg) && SoleFile(c, seg, d.of)
    case Committed(seg) => AllOnNas(c, s, seg)
    case Headed(seg, key, head, sweep) =>
      if sweep then key == Legacy(seg) && key in s.nas && head == HeadOf(c, s.nas[key]) else AllOnNas(c, s, seg)
    case Verified(seg, _, _, _) => AllOnNas(c, s, seg)
    case Guarded(seg, _, _) => AllOnNas(c, s, seg)
    case Marking(seg) => Stored(c, s, seg)
    case Aged(seg) => seg in s.firstMarked && s.now - s.firstMarked[seg] >= GRACE_SECONDS
    case Unlinked(seg) => true
    case Draining(item) => item.key.Flat? && SoleFile(c, item.key.seg, item.content)
  }

  ghost predicate ItemInv(c: Config, item: Item) {
    item.key.Flat? && Known(c, item.key.seg) && (Sole(c, item.key.seg) ==> SoleFile(c, item.key.seg, item.content))
  }

  ghost predicate LocalInv(c: Config, local: map<Segment, Rows>) {
    forall seg :: seg in local ==> Known(c, seg) && (Sole(c, seg) ==> SoleFile(c, seg, local[seg]))
  }

  ghost predicate FilesInv(c: Config, s: State) {
    && (forall seg :: seg in s.sealed ==> c.may(seg, s.sealed[seg]))
    && LocalInv(c, s.local)
    && (forall item :: item in s.queue ==> ItemInv(c, item))
    && (forall x :: x in s.history ==> c.may(x.seg, x.rows))
  }

  ghost predicate MarkInv(c: Config, s: State) {
    && (forall seg :: seg in s.marker ==> seg in s.firstMarked && s.firstMarked[seg] <= s.marker[seg])
    && (forall seg :: seg in s.firstMarked ==> Stored(c, s, seg) && s.firstMarked[seg] <= s.now)
  }

  ghost predicate ProcsInv(c: Config, s: State) {
    forall p :: p in s.procs ==> ProcInv(c, s, s.procs[p])
  }

  ghost predicate Inv(c: Config, s: State) {
    && FilesInv(c, s) && Truthful(s.nas) && SafePaths(c, s)
    && MarkInv(c, s) && Durable(c, s) && GraceKept(s) && ProcsInv(c, s)
  }

  /** Facts other processes rely on: a piece that is stored, on NAS or pinned stays so, a legacy
      object never changes, and the first marking time is never forgotten. */
  ghost predicate KeepsPieces(c: Config, s: State, t: State) {
    forall seg, rows :: c.may(seg, rows) ==>
      && (StoredPiece(c, s, seg, rows) ==> StoredPiece(c, t, seg, rows))
      && (OnNas(c, s, seg, rows) ==> OnNas(c, t, seg, rows))
      && (PinnedPiece(c, s, seg, rows) ==> PinnedPiece(c, t, seg, rows))
  }

  ghost predicate KeepsLegacy(s: State, t: State) {
    forall seg :: (Legacy(seg) in t.nas <==> Legacy(seg) in s.nas)
                  && (Legacy(seg) in s.nas ==> t.nas[Legacy(seg)] == s.nas[Legacy(seg)])
  }

  ghost predicate Keeps(c: Config, s: State, t: State) {
    && KeepsPieces(c, s, t) && KeepsLegacy(s, t)
    && (forall seg :: seg in s.firstMarked ==> seg in t.firstMarked && t.firstMarked[seg] == s.firstMarked[seg])
    && s.now <= t.now
  }

  lemma KeepsPaths(c: Config, s: State, t: State, seg: Segment)
    requires KeepsPieces(c, s, t) && KeepsLegacy(s, t)
    ensures Stored(c, s, seg) ==> Stored(c, t, seg)
    ensures AllOnNas(c, s, seg) ==> AllOnNas(c, t, seg)
    ensures SafePath(c, s, seg) ==> SafePath(c, t, seg)
  {
  }

  /** The promises other processes hold survive any step that keeps those facts. */
  lemma ProcStable(c: Config, s: State, t: State, q: Proc)
    requires Keeps(c, s, t) && ProcInv(c, s, q)
    ensures ProcInv(c, t, q)
  {
    if !q.Draining? { KeepsPaths(c, s, t, q.seg); }
  }

  /** Lifts a step that moves one process and keeps the shared facts. */
  lemma StepKeepsProcs(c: Config, s: State, t: State, p: nat)
    requires ProcsInv(c, s) && Keeps(c, s, t)
    requires Others(s, t, p)
    requires p in t.procs ==> ProcInv(c, t, t.procs[p])
    ensures ProcsInv(c, t)
  {
    forall q | q in t.procs && q != p ensures ProcInv(c, t, t.procs[q]) {
      ProcStable(c, s, t, s.procs[q]);
    }
  }

  ghost predicate Others(s: State, t: State, p: nat) {
    forall q :: q in t.procs && q != p ==> q in s.procs && t.procs[q] == s.procs[q]
  }

  /** Storing a path's only file under its flat key, with its hash, keeps every shared fact. */
  lemma PutKeeps(c: Config, s: State, t: State, seg: Segment, o: Object)
    requires SoleFile(c, seg, o.content) && o.sha.Some?
    requires t == s.(nas := s.nas[Flat(seg) := o], queue := t.queue, procs := t.procs)
    ensures Keeps(c, s, t) && AllOnNas(c, t, seg)
  {
    forall x, rows | c.may(x, rows)
      ensures StoredPiece(c, s, x, rows) ==> StoredPiece(c, t, x, rows)
      ensures OnNas(c, s, x, rows) ==> OnNas(c, t, x, rows)
      ensures PinnedPiece(c, s, x, rows) ==> PinnedPiece(c, t, x, rows)
    {
      assert NasHas(c, t, Legacy(x), rows) == NasHas(c, s, Legacy(x), rows);
      if x == seg {
        assert NasHas(c, t, Flat(x), rows);
      } else {
        assert NasHas(c, t, Flat(x), rows) == NasHas(c, s, Flat(x), rows);
      }
    }
    forall rows | c.may(seg, rows) ensures OnNas(c, t, seg, rows) { assert NasHas(c, t, Flat(seg), rows); }
  }

  /** With the NAS unchanged and no stored piece removed, every shared fact is kept. */
  lemma LocalKeeps(c: Config, s: State, t: State)
    requires t.nas == s.nas && t.now >= s.now
    requires forall seg, rows :: c.may(seg, rows) && seg in s.local && s.local[seg] == c.parquet(rows) ==>
               (seg in t.local && t.local[seg] == c.parquet(rows)) || OnNas(c, s, seg, rows)
    requires forall seg :: seg in s.firstMarked ==> seg in t.firstMarked && t.firstMarked[seg] == s.firstMarked[seg]
    ensures Keeps(c, s, t)
  {
    forall seg, rows ensures OnNas(c, s, seg, rows) == OnNas(c, t, seg, rows)
                     ensures PinnedPiece(c, s, seg, rows) == PinnedPiece(c, t, seg, rows) {}
  }

  /** A step that touches neither WAL files nor markers and keeps the shared facts needs only
      its own file, object and process facts shown. */
  lemma InvFrame(c: Config, s: State, t: State, p: nat)
    requires Inv(c, s) && Keeps(c, s, t) && FilesInv(c, t) && Truthful(t.nas)
    requires t.sealed == s.sealed && t.marker == s.marker
    requires t.everSealed == s.everSealed && t.history == s.history && t.firstMarked == s.firstMarked
    requires Others(s, t, p)
    requires p in t.procs ==> ProcInv(c, t, t.procs[p])
    ensures Inv(c, t)
  {
    StepKeepsProcs(c, s, t, p);
    forall seg ensures Stored(c, s, seg) ==> Stored(c, t, seg)
               ensures SafePath(c, t, seg)
    {
      KeepsPaths(c, s, t, seg);
    }
  }

  /** A process moves on; nothing else changes. */
  lemma InvMove(c: Config, s: State, t: State, p: nat)
    requires Inv(c, s) && t == s.(procs := t.procs) && Others(s, t, p)
    requires p in t.procs ==> ProcInv(c, s, t.procs[p])
    ensures Inv(c, t)
  {
    LocalKeeps(c, s, t);
    if p in t.procs { ProcStable(c, s, t, t.procs[p]); }
    InvFrame(c, s, t, p);
  }

  lemma InvPutObject(c: Config, s: State, t: State, p: nat, seg: Segment, o: Object)
    requires Inv(c, s) && SoleFile(c, seg, o.content) && o.sha == Some(Digest(o.content))
    requires t == s.(nas := s.nas[Flat(seg) := o], queue := t.queue, procs := t.procs) && t.queue <= s.queue
    requires Others(s, t, p)
    requires p in t.procs ==> t.procs[p] == Committed(seg)
    ensures Inv(c, t)
  {
    PutKeeps(c, s, t, seg, o);
    InvFrame(c, s, t, p);
  }

  lemma InvQueue(c: Config, s: State, t: State, p: nat)
    requires Inv(c, s) && t == s.(queue := t.queue, procs := t.procs) && Others(s, t, p)
    requires forall item :: item in t.queue ==> ItemInv(c, item)
    requires p in t.procs ==> ProcInv(c, s, t.procs[p])
    ensures Inv(c, t)
  {
    LocalKeeps(c, s, t);
    if p in t.procs { ProcStable(c, s, t, t.procs[p]); }
    InvFrame(c, s, t, p);
  }

  /** A local file holds its path's only file, or the path's pieces are all on NAS. */
  lemma LocalIsStored(c: Config, s: State, seg: Segment)
    requires SafePath(c, s, seg) && seg in s.local && (Sole(c, seg) ==> SoleFile(c, seg, s.local[seg]))
    ensures Stored(c, s, seg)
  {
  }

  /** Where a HEAD asks for an upload, the path has one file only. */
  lemma UploadIsSole(c: Config, s: State, seg: Segment)
    requires SafePath(c, s, seg) && NeedsUpload(s.nas, Flat(seg))
    ensures Sole(c, seg)
  {
    if Pinned(c, s, seg) {
      forall x, y | c.may(seg, x) && c.may(seg, y) ensures c.parquet(x) == c.parquet(y) {
        assert PinnedPiece(c, s, seg, x) && PinnedPiece(c, s, seg, y);
      }
    }
  }

  lemma InvCompact(c: Config, s: State, p: nat, a: CompactStep)
    requires Inv(c, s) && CanCompact(s, p, a)
    ensures Inv(c, DoCompact(c, s, p, a))
  {
    var t := DoCompact(c, s, p, a);
    assert p in s.procs ==> ProcInv(c, s, s.procs[p]);
    match a
    case Start(seg) =>
      if seg in s.local { LocalIsStored(c, s, seg); }
      InvMove(c, s, t, p);
    case Skip => InvMove(c, s, t, p);
    case Load => InvMove(c, s, t, p);
    case Rename => InvRename(c, s, t, p, s.procs[p].seg, s.procs[p].rows);
    case Touch => InvTouch(c, s, t, p);
  }

  /** The renamed file is the path's only one, or all that may be sealed there is on NAS. */
  lemma RenameKeeps(c: Config, s: State, t: State, seg: Segment, rows: Rows)
    requires SafePath(c, s, seg) && c.may(seg, rows)
    requires t == s.(local := s.local[seg := c.parquet(rows)], procs := t.procs)
    ensures Keeps(c, s, t)
  {
    forall x, y | c.may(x, y) && x in s.local && s.local[x] == c.parquet(y)
      ensures (x in t.local && t.local[x] == c.parquet(y)) || OnNas(c, s, x, y)
    {
      if x == seg && !Sole(c, seg) { assert PinnedPiece(c, s, x, y); }
    }
    LocalKeeps(c, s, t);
  }

  lemma InvRename(c: Config, s: State, t: State, p: nat, seg: Segment, rows: Rows)
    requires Inv(c, s) && c.may(seg, rows)
    requires t == s.(local := s.local[seg := c.parquet(rows)], procs := s.procs[p := Written(seg)])
    ensures Inv(c, t)
  {
    RenameKeeps(c, s, t, seg, rows);
    KeepsPaths(c, s, t, seg);
    LocalIsStored(c, t, seg);
    InvFrame(c, s, t, p);
  }

  /** Setting the marker of a stored path. */
  lemma MarksKeep(c: Config, s: State, t: State, seg: Segment)
    requires MarkInv(c, s) && Stored(c, s, seg) && (forall x :: Stored(c, s, x) ==> Stored(c, t, x)) && t.now == s.now
    requires t.marker == if seg in s.marker then s.marker else s.marker[seg := s.now]
    requires t.firstMarked == if seg in s.firstMarked then s.firstMarked else s.firstMarked[seg := s.now]
    ensures MarkInv(c, t)
  {
  }

  lemma InvTouch(c: Config, s: State, t: State, p: nat)
    requires Inv(c, s) && CanCompact(s, p, Touch) && t == DoCompact(c, s, p, Touch)
    ensures Inv(c, t)
  {
    assert ProcInv(c, s, s.procs[p]);
    LocalKeeps(c, s, t);
    StepKeepsProcs(c, s, t, p);
    forall seg ensures Stored(c, s, seg) ==> Stored(c, t, seg)
               ensures SafePath(c, t, seg)
    {
      KeepsPaths(c, s, t, seg);
    }
    MarksKeep(c, s, t, s.procs[p].seg);
  }

  lemma InvPut(c: Config, s: State, p: nat, a: PutStep)
    requires Inv(c, s) && CanPut(s, p, a)
    ensures Inv(c, DoPut(s, p, a))
  {
    var q := s.procs[p];
    assert ProcInv(c, s, q);
    if a.Upload? {
      var t := DoPut(s, p, a);
      InvPutObject(c, s, t, p, q.seg, t.nas[Flat(q.seg)]);
    } else if a.Enqueue? {
      InPutIsStored(c, s, q);
      InvQueue(c, s, DoPut(s, p, a), p);
    } else if a.HeadForPut? {
      PutHeads(c, s, p);
    } else {
      InPutIsStored(c, s, q);
      InvMove(c, s, DoPut(s, p, a), p);
    }
  }

  lemma InPutIsStored(c: Config, s: State, q: Proc)
    requires ProcInv(c, s, q) && InPut(q)
    ensures Stored(c, s, q.seg)
  {
  }

  lemma PutHeads(c: Config, s: State, p: nat)
    requires Inv(c, s) && CanPut(s, p, HeadForPut)
    ensures Inv(c, DoPut(s, p, HeadForPut))
  {
    var t := DoPut(s, p, HeadForPut);
    var q := s.procs[p];
    assert ProcInv(c, s, q);
    HeadedPut(c, s, q.seg, q.digest, t.procs[p]);
    InvMove(c, s, t, p);
  }

  /** A recorded hash equal to the local file's means the object is the file. */
  lemma HeadedPut(c: Config, s: State, seg: Segment, d: Digest, next: Proc)
    requires Truthful(s.nas) && SafePath(c, s, seg) && ProcInv(c, s, Hashed(seg, d))
    requires (next == Uploading(seg, d) && NeedsUpload(s.nas, Flat(seg))) || next == Marking(seg)
             || (next == Committed(seg) && Flat(seg) in s.nas && s.nas[Flat(seg)].sha == Some(d))
    ensures ProcInv(c, s, next)
  {
    if next.Uploading? {
      UploadIsSole(c, s, seg);
    } else if next.Committed? {
      forall rows | c.may(seg, rows) ensures OnNas(c, s, seg, rows) {
        if Sole(c, seg) {
          assert NasHas(c, s, Flat(seg), rows);
        } else {
          assert PinnedPiece(c, s, seg, rows);
        }
      }
    }
  }

  lemma MatchedFile(c: Config, s: State, seg: Segment, rows: Rows)
    requires Truthful(s.nas) && NoCollision(c, s, seg) && c.may(seg, rows)
    requires Legacy(seg) in s.nas && Matches(c, HeadOf(c, s.nas[Legacy(seg)]), c.parquet(rows))
    ensures OnNas(c, s, seg, rows)
  {
    if s.nas[Legacy(seg)].sha.Some? { assert NasHas(c, s, Legacy(seg), rows); }
  }

  /** A HEAD that matches the local file names an object with the same bytes: by its hash, or,
      for a legacy object without one, because no collision exists. */
  lemma MatchMeansHeld(c: Config, s: State, p: nat)
    requires Inv(c, s) && CanPromote(c, s, p, Compare)
    ensures AllOnNas(c, s, s.procs[p].seg)
  {
    var q := s.procs[p];
    assert ProcInv(c, s, q) && SafePath(c, s, q.seg);
    if q.sweep {
      forall rows | c.may(q.seg, rows) ensures OnNas(c, s, q.seg, rows) {
        if Pinned(c, s, q.seg) {
          assert PinnedPiece(c, s, q.seg, rows);
        } else {
          MatchedFile(c, s, q.seg, rows);
        }
      }
    }
  }

  lemma InvPromote(c: Config, s: State, p: nat, a: PromoteStep)
    requires Inv(c, s) && CanPromote(c, s, p, a)
    ensures Inv(c, DoPromote(c, s, p, a))
  {
    var t := DoPromote(c, s, p, a);
    assert p in s.procs ==> ProcInv(c, s, s.procs[p]);
    if a.Unlink? {
      InvUnlink(c, s, t, p, s.procs[p].seg);
    } else {
      if a.Compare? { MatchMeansHeld(c, s, p); }
      InvMove(c, s, t, p);
    }
  }

  /** An object that changed between the two HEADs, or is gone, ends the promotion: no further step
      of it can be taken, so the local file stays. */
  lemma GuardStops(c: Config, s: State, p: nat, a: PromoteStep)
    requires p in s.procs && s.procs[p].Verified?
    requires var q := s.procs[p];
             q.key in s.nas ==> s.nas[q.key].etag != q.head.etag || c.size(s.nas[q.key].content) != q.head.length
    ensures !Enabled(c, s, Promote(p, a))
  {
  }

  lemma InvUnlink(c: Config, s: State, t: State, p: nat, seg: Segment)
    requires Inv(c, s) && AllOnNas(c, s, seg) && t == s.(local := s.local - {seg}, procs := t.procs)
    requires Others(s, t, p) && (p in t.procs ==> t.procs[p] == Marking(seg))
    ensures Inv(c, t)
  {
    LocalKeeps(c, s, t);
    KeepsPaths(c, s, t, seg);
    InvFrame(c, s, t, p);
  }

  lemma InvCollect(c: Config, s: State, p: nat, a: CollectStep)
    requires Inv(c, s) && CanCollect(s, p, a)
    ensures Inv(c, DoCollect(s, p, a))
  {
    var t := DoCollect(s, p, a);
    assert p in s.procs ==> ProcInv(c, s, s.procs[p]);
    if a.UnlinkSealed? {
      InvSealedGone(c, s, t, p, s.procs[p].seg);
    } else if a.UnlinkMarker? {
      InvMarkerGone(c, s, t, p);
    } else {
      InvMove(c, s, t, p);
    }
  }

  lemma InvSealedGone(c: Config, s: State, t: State, p: nat, seg: Segment)
    requires Inv(c, s) && seg in s.firstMarked && s.now - s.firstMarked[seg] >= GRACE_SECONDS
    requires t == s.(sealed := s.sealed - {seg}, procs := s.procs[p := Unlinked(seg)])
    ensures Inv(c, t)
  {
    KeptFiles(c, s, t);
    StepKeepsProcs(c, s, t, p);
    assert Stored(c, s, seg);
  }

  lemma InvMarkerGone(c: Config, s: State, t: State, p: nat)
    requires Inv(c, s) && t == s.(marker := t.marker, procs := s.procs - {p})
    requires forall seg :: seg in t.marker ==> seg in s.marker && t.marker[seg] == s.marker[seg]
    ensures Inv(c, t)
  {
    KeptFiles(c, s, t);
    StepKeepsProcs(c, s, t, p);
  }

  /** With local files and NAS unchanged, so is all that rests on them. */
  lemma KeptFiles(c: Config, s: State, t: State)
    requires t.nas == s.nas && t.local == s.local && t.firstMarked == s.firstMarked && s.now <= t.now
    ensures Keeps(c, s, t)
    ensures forall seg, rows :: StoredPiece(c, s, seg, rows) == StoredPiece(c, t, seg, rows)
    ensures forall seg :: Stored(c, s, seg) == Stored(c, t, seg)
    ensures SafePaths(c, s) ==> SafePaths(c, t)
  {
    LocalKeeps(c, s, t);
    forall seg, rows ensures StoredPiece(c, s, seg, rows) == StoredPiece(c, t, seg, rows) {}
    forall seg ensures SafePath(c, s, seg) ==> SafePath(c, t, seg) { KeepsPaths(c, s, t, seg); }
  }

  lemma InvPick(c: Config, s: State, p: nat, item: Item)
    requires Inv(c, s) && CanDrain(s, p, Pick(item))
    ensures Inv(c, DoDrain(s, p, Pick(item)))
  {
    assert ItemInv(c, item);
    if NeedsUpload(s.nas, item.key) {
      UploadIsSole(c, s, item.key.seg);
      InvMove(c, s, DoDrain(s, p, Pick(item)), p);
    } else {
      InvQueue(c, s, DoDrain(s, p, Pick(item)), p);
    }
  }

  lemma InvDrain(c: Config, s: State, p: nat, a: DrainStep)
    requires Inv(c, s) && CanDrain(s, p, a)
    ensures Inv(c, DoDrain(s, p, a))
  {
    match a
    case Pick(item) => InvPick(c, s, p, item);
    case Store(_) =>
      var t := DoDrain(s, p, a);
      assert ProcInv(c, s, s.procs[p]);
      var item := s.procs[p].item;
      InvPutObject(c, s, t, p, item.key.seg, t.nas[item.key]);
  }

  /** Sealing over a path, whatever it holds: what was there has the same file, or is on NAS. */
  lemma InvSeal(c: Config, s: State, t: State, seg: Segment, rows: Rows)
    requires Inv(c, s) && c.may(seg, rows) && t == DoSeal(s, seg, rows)
    ensures Inv(c, t)
  {
    KeptFiles(c, s, t);
    forall p | p in t.procs ensures ProcInv(c, t, t.procs[p]) { ProcStable(c, s, t, s.procs[p]); }
    assert SafePath(c, s, seg);
    forall x | x in t.history
      ensures (x.seg in t.sealed && c.parquet(t.sealed[x.seg]) == c.parquet(x.rows)) || StoredPiece(c, t, x.seg, x.rows)
    {
      if x.seg == seg && x.rows != rows && !Sole(c, seg) { assert PinnedPiece(c, s, seg, x.rows); }
    }
  }

  lemma InvTick(c: Config, s: State, t: State)
    requires Inv(c, s) && t == s.(now := t.now) && s.now <= t.now
    ensures Inv(c, t)
  {
    KeptFiles(c, s, t);
    forall p | p in t.procs ensures ProcInv(c, t, t.procs[p]) { ProcStable(c, s, t, s.procs[p]); }
  }

  lemma InvStep(c: Config, s: State, step: Step)
    requires Inv(c, s) && Enabled(c, s, step)
    ensures Inv(c, Apply(c, s, step))
  {
    match step
    case Seal(seg, rows) => InvSeal(c, s, Apply(c, s, step), seg, rows);
    case Tick(_) => InvTick(c, s, Apply(c, s, step));
    case Crash(p) => InvMove(c, s, Apply(c, s, step), p);
    case Compact(p, a) => InvCompact(c, s, p, a);
    case Put(p, a) => InvPut(c, s, p, a);
    case Promote(p, a) => InvPromote(c, s, p, a);
    case Collect(p, a) => InvCollect(c, s, p, a);
    case Drain(p, a) => InvDrain(c, s, p, a);
  }

  lemma {:induction false} InvRun(c: Config, s: State, steps: seq<Step>)
    requires Inv(c, s) && Possible(c, s, steps)
    ensures Inv(c, Exec(c, s, steps))
    decreases |steps|
  {
    if steps != [] {
      InvStep(c, s, steps[0]);
      InvRun(c, Apply(c, s, steps[0]), steps[1..]);
    }
  }

  lemma InitInv(c: Config, s: State)
    requires Init(s) && SafePaths(c, s)
    ensures Inv(c, s)
  {
  }

  /** Safety over whole runs: whatever interleaves and whatever crashes, no sealed segment's
      rows are lost and no sealed file goes before its 24 hours. */
  lemma SafeRuns(c: Config, s: State, steps: seq<Step>)
    requires Init(s) && SafePaths(c, s) && Possible(c, s, steps)
    ensures Durable(c, Exec(c, s, steps)) && GraceKept(Exec(c, s, steps))
  {
    InitInv(c, s);
    InvRun(c, s, steps);
  }

  // ---------------------------------------------------------------- recovery

  /** The steps of one uninterrupted compaction whose upload fails or is not configured. */
  function CompactAlone(s: State, p: nat, seg: Segment): seq<Step> {
    WriteAlone(s, p, seg) + [Put(p, GiveUp), Compact(p, Touch)]
  }

  function WriteAlone(s: State, p: nat, seg: Segment): seq<Step> {
    if seg in s.local then [Compact(p, Start(seg)), Compact(p, Skip)]
    else [Compact(p, Start(seg)), Compact(p, Load), Compact(p, Rename)]
  }

  /** The file a compaction ends with: the one it finds, or the sealed records'. */
  function L1File(c: Config, s: State, seg: Segment): Rows
    requires seg in s.local || seg in s.sealed
  {
    if seg in s.local then s.local[seg] else c.parquet(s.sealed[seg])
  }

  lemma Wrote(c: Config, s: State, p: nat, seg: Segment)
    requires p !in s.procs && seg in s.everSealed && (seg in s.local || seg in s.sealed)
    ensures Possible(c, s, WriteAlone(s, p, seg))
    ensures Exec(c, s, WriteAlone(s, p, seg)) ==
            s.(local := s.local[seg := L1File(c, s, seg)], procs := s.procs[p := Written(seg)])
  {
    if seg in s.local {
      var s1 := Apply(c, s, Compact(p, Start(seg)));
      var s2 := Apply(c, s1, Compact(p, Skip));
      Chain2(c, s, s1, s2, WriteAlone(s, p, seg));
      assert s.local == s.local[seg := s.local[seg]];
      assert s2.procs == s.procs[p := Written(seg)];
    } else {
      WroteFresh(c, s, p, seg, s.sealed[seg]);
    }
  }

  lemma WroteFresh(c: Config, s: State, p: nat, seg: Segment, rows: Rows)
    requires p !in s.procs && seg !in s.local && seg in s.everSealed && seg in s.sealed && s.sealed[seg] == rows
    ensures Possible(c, s, WriteAlone(s, p, seg))
    ensures Exec(c, s, WriteAlone(s, p, seg)) ==
            s.(local := s.local[seg := c.parquet(rows)], procs := s.procs[p := Written(seg)])
  {
    var steps, t := WriteAlone(s, p, seg), s.(local := s.local[seg := c.parquet(rows)]);
    var s1, s2, s3 := Stay(s, p, Checked(seg, false)), Stay(s, p, Loaded(seg, rows)), Stay(t, p, Written(seg));
    StayTwice(s, p, Checked(seg, false), Loaded(seg, rows));
    StayTwice(t, p, Loaded(seg, rows), Written(seg));
    Chain2(c, s1, s2, s3, steps[1..]);
    ExecOne(c, s, steps[0]);
    ExecConcat(c, s, [steps[0]], steps[1..]);
    assert steps == [steps[0]] + steps[1..];
  }

  lemma Marked(c: Config, s: State, p: nat, seg: Segment)
    requires p in s.procs && s.procs[p] == Written(seg)
    ensures var steps := [Put(p, GiveUp), Compact(p, Touch)];
            && Possible(c, s, steps)
            && var t := Exec(c, s, steps);
            && t == s.(marker := t.marker, firstMarked := t.firstMarked, procs := s.procs - {p})
            && t.marker == (if seg in s.marker then s.marker else s.marker[seg := s.now])
            && t.firstMarked == (if seg in s.firstMarked then s.firstMarked else s.firstMarked[seg := s.now])
  {
    var steps := [Put(p, GiveUp), Compact(p, Touch)];
    var s1 := Apply(c, s, steps[0]);
    var s2 := Apply(c, s1, steps[1]);
    Chain2(c, s, s1, s2, steps);
    assert s2.procs == s.procs - {p};
  }

  /** Whatever state earlier runs and crashes left behind, compacting a sealed segment again ends
      with its Parquet file in place and the marker set; it is the file of what is sealed now
      unless a piece with another file was sealed before. */
  lemma Recompact(c: Config, s: State, p: nat, seg: Segment)
    requires FilesInv(c, s) && p !in s.procs && seg in s.sealed && seg in s.everSealed
    ensures Possible(c, s, CompactAlone(s, p, seg))
    ensures var t := Exec(c, s, CompactAlone(s, p, seg));
            && t.local == s.local[seg := L1File(c, s, seg)] && seg in t.marker
            && t.sealed == s.sealed && t.nas == s.nas && t.queue == s.queue && t.procs == s.procs
    ensures Sole(c, seg) ==> L1File(c, s, seg) == c.parquet(s.sealed[seg])
  {
    Wrote(c, s, p, seg);
    var s1 := Exec(c, s, WriteAlone(s, p, seg));
    Marked(c, s1, p, seg);
    ExecConcat(c, s, WriteAlone(s, p, seg), [Put(p, GiveUp), Compact(p, Touch)]);
    assert s.procs[p := Written(seg)] - {p} == s.procs;
  }

  lemma Chain2(c: Config, s: State, s1: State, s2: State, steps: seq<Step>)
    requires |steps| == 2
    requires Enabled(c, s, steps[0]) && s1 == Apply(c, s, steps[0])
    requires Enabled(c, s1, steps[1]) && s2 == Apply(c, s1, steps[1])
    ensures Possible(c, s, steps) && Exec(c, s, steps) == s2
  {
    ExecOne(c, s, steps[0]);
    ExecOne(c, s1, steps[1]);
    ExecConcat(c, s, [steps[0]], [steps[1]]);
    assert steps == [steps[0]] + [steps[1]];
  }

  lemma Chain4(c: Config, s: State, s1: State, s2: State, s3: State, s4: State, steps: seq<Step>)
    requires |steps| == 4
    requires Enabled(c, s, steps[0]) && s1 == Apply(c, s, steps[0])
    requires Enabled(c, s1, steps[1]) && s2 == Apply(c, s1, steps[1])
    requires Enabled(c, s2, steps[2]) && s3 == Apply(c, s2, steps[2])
    requires Enabled(c, s3, steps[3]) && s4 == Apply(c, s3, steps[3])
    ensures Possible(c, s, steps) && Exec(c, s, steps) == s4
  {
    Chain2(c, s, s1, s2, steps[..2]);
    Chain2(c, s2, s3, s4, steps[2..]);
    ExecConcat(c, s, steps[..2], steps[2..]);
    assert steps == steps[..2] + steps[2..];
  }

  /** A drain that uploads leaves the item's own bytes and hash under its key and takes it off the
      queue. */
  lemma DrainStores(c: Config, s: State, p: nat, item: Item, etag: string)
    requires p !in s.procs && item in s.queue && (item.key in s.nas ==> s.nas[item.key].sha.None?)
    ensures var steps := [Drain(p, Pick(item)), Drain(p, Store(etag))];
            && Possible(c, s, steps)
            && Exec(c, s, steps) == s.(nas := s.nas[item.key := Object(etag, Some(Digest(item.content)), item.content)],
                                       queue := s.queue - {item})
  {
    var s1 := Stay(s, p, Draining(item));
    var s2 := Apply(c, s1, Drain(p, Store(etag)));
    Chain2(c, s, s1, s2, [Drain(p, Pick(item)), Drain(p, Store(etag))]);
    assert s1.procs - {p} == s.procs;
  }

  /** Where the NAS has an object with a hash, a drain writes nothing and takes the item off the
      queue only if the hash is the item's. */
  lemma DrainSkips(c: Config, s: State, p: nat, item: Item)
    requires p !in s.procs && item in s.queue && item.key in s.nas && s.nas[item.key].sha.Some?
    ensures Possible(c, s, [Drain(p, Pick(item))])
    ensures Exec(c, s, [Drain(p, Pick(item))]) ==
            if s.nas[item.key].sha.value.of == item.content then s.(queue := s.queue - {item}) else s
  {
    ExecOne(c, s, Drain(p, Pick(item)));
  }

  // ---------------------------------------------------------------- exactness

  /** A sweep that takes the legacy object for the local file and unlinks it. */
  function SweepAway(p: nat, seg: Segment): seq<Step> {
    [Promote(p, HeadLegacy(seg)), Promote(p, Compare), Promote(p, Guard), Promote(p, Unlink)]
  }

  /** A day passes and GC removes the sealed file and its marker. */
  function CollectAway(seg: Segment): seq<Step> {
    [Tick(GRACE_SECONDS), Collect(0, Look(seg)), Collect(0, UnlinkSealed), Collect(0, UnlinkMarker)]
  }

  lemma SweptAway(c: Config, s: State, p: nat, seg: Segment)
    requires p !in s.procs && seg in s.local && Legacy(seg) in s.nas
    requires Matches(c, HeadOf(c, s.nas[Legacy(seg)]), s.local[seg])
    ensures Possible(c, s, SweepAway(p, seg))
    ensures Exec(c, s, SweepAway(p, seg)) == s.(local := s.local - {seg})
  {
    var key, head := Legacy(seg), HeadOf(c, s.nas[Legacy(seg)]);
    var s1 := Stay(s, p, Headed(seg, key, head, true));
    var s2 := Stay(s, p, Verified(seg, key, head, true));
    var s3 := Stay(s, p, Guarded(seg, key, true));
    StayTwice(s, p, s1.procs[p], s2.procs[p]);
    StayTwice(s, p, s2.procs[p], s3.procs[p]);
    assert s3.procs - {p} == s.procs;
    Chain4(c, s, s1, s2, s3, s.(local := s.local - {seg}), SweepAway(p, seg));
  }

  lemma CollectedAway(c: Config, s: State, seg: Segment)
    requires s.procs == map[] && seg in s.marker && s.marker[seg] <= s.now
    ensures Possible(c, s, CollectAway(seg))
    ensures Exec(c, s, CollectAway(seg)) ==
            s.(now := s.now + GRACE_SECONDS, sealed := s.sealed - {seg}, marker := s.marker - {seg})
  {
    var steps := CollectAway(seg);
    var s1 := Apply(c, s, steps[0]);
    var s2 := Apply(c, s1, steps[1]);
    var s3 := Apply(c, s2, steps[2]);
    var s4 := Apply(c, s3, steps[3]);
    assert s4.procs == s.procs;
    Chain4(c, s, s1, s2, s3, s4, steps);
  }

  /** Seal and compact, with the upload failing: the file and its marker are in place. */
  lemma SealedAndCompacted(c: Config, s: State, seg: Segment, rows: Rows) returns (run: seq<Step>)
    requires Init(s) && c.may(seg, rows)
    ensures Possible(c, s, run)
    ensures Exec(c, s, run) == s.(sealed := map[seg := rows], everSealed := {seg}, history := {Piece(seg, rows)},
                                  local := map[seg := c.parquet(rows)],
                                  marker := map[seg := s.now], firstMarked := map[seg := s.now])
  {
    var s1 := Apply(c, s, Seal(seg, rows));
    ExecOne(c, s, Seal(seg, rows));
    Wrote(c, s1, 0, seg);
    var s2 := Exec(c, s1, WriteAlone(s1, 0, seg));
    Marked(c, s2, 0, seg);
    var rest := WriteAlone(s1, 0, seg) + [Put(0, GiveUp), Compact(0, Touch)];
    ExecConcat(c, s1, WriteAlone(s1, 0, seg), [Put(0, GiveUp), Compact(0, Touch)]);
    run := [Seal(seg, rows)] + rest;
    ExecConcat(c, s, [Seal(seg, rows)], rest);
    assert s2.procs - {0} == map[];
  }

  /** A colliding legacy object loses its segment: the upload fails once, a later sweep takes the
      unhashed object for the local file, and GC removes the WAL file. */
  lemma CollisionLoses(c: Config, s: State, seg: Segment, rows: Rows) returns (run: seq<Step>)
    requires Init(s) && c.may(seg, rows) && Legacy(seg) in s.nas && s.nas[Legacy(seg)].sha.None?
    requires c.size(s.nas[Legacy(seg)].content) == c.size(c.parquet(rows))
    requires !OnNas(c, s, seg, rows)
    ensures Possible(c, s, run) && !Durable(c, Exec(c, s, run))
  {
    var a := SealedAndCompacted(c, s, seg, rows);
    var s1 := Exec(c, s, a);
    SweptAway(c, s1, 0, seg);
    var s2 := Exec(c, s1, SweepAway(0, seg));
    CollectedAway(c, s2, seg);
    var s3 := Exec(c, s2, CollectAway(seg));
    ExecConcat(c, s1, SweepAway(0, seg), CollectAway(seg));
    run := a + (SweepAway(0, seg) + CollectAway(seg));
    ExecConcat(c, s, a, SweepAway(0, seg) + CollectAway(seg));
    assert s3.nas == s.nas && OnNas(c, s3, seg, rows) == OnNas(c, s, seg, rows);
    assert Piece(seg, rows) in s3.history && !StoredPiece(c, s3, seg, rows);
  }

  // ---------------------------------------------------------------- sealing a path again

  lemma Resealed(c: Config, s: State, seg: Segment, rows: Rows, later: Rows)
    requires Init(s) && c.may(seg, rows) && c.may(seg, later)
    ensures Possible(c, s, [Seal(seg, rows), Seal(seg, later)])
    ensures Exec(c, s, [Seal(seg, rows), Seal(seg, later)]) ==
            s.(sealed := map[seg := later], everSealed := {seg}, history := {Piece(seg, rows), Piece(seg, later)})
  {
    var s1 := DoSeal(s, seg, rows);
    var s2 := DoSeal(s1, seg, later);
    Chain2(c, s, s1, s2, [Seal(seg, rows), Seal(seg, later)]);
  }

  /** A second piece sealed before the first is compacted replaces it. */
  lemma ResealLoses(c: Config, s: State, seg: Segment, rows: Rows, later: Rows)
    requires Init(s) && c.may(seg, rows) && c.may(seg, later) && c.parquet(rows) != c.parquet(later)
    requires !OnNas(c, s, seg, rows)
    ensures Possible(c, s, [Seal(seg, rows), Seal(seg, later)])
    ensures !Durable(c, Exec(c, s, [Seal(seg, rows), Seal(seg, later)]))
  {
    Resealed(c, s, seg, rows, later);
    var t := Exec(c, s, [Seal(seg, rows), Seal(seg, later)]);
    assert Piece(seg, rows) in t.history && OnNas(c, t, seg, rows) == OnNas(c, s, seg, rows);
  }

  /** A second piece sealed after the first was compacted stands under its marker: no scan picks
      it up, and GC removes it with the first. */
  lemma MarkedResealLoses(c: Config, s: State, seg: Segment, rows: Rows, later: Rows) returns (run: seq<Step>)
    requires Init(s) && c.may(seg, rows) && c.may(seg, later) && c.parquet(rows) != c.parquet(later)
    requires !OnNas(c, s, seg, later)
    ensures Possible(c, s, run) && !Durable(c, Exec(c, s, run))
  {
    var a := SealedAndCompacted(c, s, seg, rows);
    var s1 := Exec(c, s, a);
    var s2 := DoSeal(s1, seg, later);
    ExecOne(c, s1, Seal(seg, later));
    CollectedAway(c, s2, seg);
    var s3 := Exec(c, s2, CollectAway(seg));
    ExecConcat(c, s1, [Seal(seg, later)], CollectAway(seg));
    run := a + ([Seal(seg, later)] + CollectAway(seg));
    ExecConcat(c, s, a, [Seal(seg, later)] + CollectAway(seg));
    assert s3.nas == s.nas && OnNas(c, s3, seg, later) == OnNas(c, s, seg, later);
    assert Piece(seg, later) in s3.history && s3.local[seg] == c.parquet(rows) && seg !in s3.sealed;
  }

  lemma StayTwice(s: State, p: nat, a: Proc, b: Proc)
    ensures Stay(Stay(s, p, a), p, b) == Stay(s, p, b)
  {
    assert s.procs[p := a][p := b] == s.procs[p := b];
  }

  /** Hash and HEAD of the file a compaction wrote, where the NAS lacks it. */
  lemma HeadedForUpload(c: Config, s: State, p: nat, seg: Segment)
    requires p in s.procs && s.procs[p] == Written(seg) && seg in s.local && NeedsUpload(s.nas, Flat(seg))
    ensures Possible(c, s, [Put(p, Hash), Put(p, HeadForPut)])
    ensures Exec(c, s, [Put(p, Hash), Put(p, HeadForPut)]) == Stay(s, p, Uploading(seg, Digest(s.local[seg])))
  {
    var d := Digest(s.local[seg]);
    var s1 := Stay(s, p, Hashed(seg, d));
    StayTwice(s, p, Hashed(seg, d), Uploading(seg, d));
    Chain2(c, s, s1, Stay(s, p, Uploading(seg, d)), [Put(p, Hash), Put(p, HeadForPut)]);
  }

  /** And the upload. */
  lemma Uploaded(c: Config, s: State, p: nat, seg: Segment, etag: string)
    requires p in s.procs && s.procs[p] == Written(seg) && seg in s.local && NeedsUpload(s.nas, Flat(seg))
    ensures var run := [Put(p, Hash), Put(p, HeadForPut)] + [Put(p, Upload(etag))];
            var o := Object(etag, Some(Digest(s.local[seg])), s.local[seg]);
            Possible(c, s, run) && Exec(c, s, run) == Stay(s.(nas := s.nas[Flat(seg) := o]), p, Committed(seg))
  {
    HeadedForUpload(c, s, p, seg);
    var u := Stay(s, p, Uploading(seg, Digest(s.local[seg])));
    ExecOne(c, u, Put(p, Upload(etag)));
    ExecConcat(c, s, [Put(p, Hash), Put(p, HeadForPut)], [Put(p, Upload(etag))]);
    assert u.procs[p := Committed(seg)] == s.procs[p := Committed(seg)];
  }

  /** A piece that is on NAS only under a flat key without a hash is overwritten there by the
      upload of the piece sealed over it. */
  lemma OverwriteLoses(c: Config, s: State, seg: Segment, rows: Rows, later: Rows) returns (run: seq<Step>)
    requires Init(s) && c.may(seg, rows) && c.may(seg, later) && c.parquet(rows) != c.parquet(later)
    requires NeedsUpload(s.nas, Flat(seg)) && !NasHas(c, s, Legacy(seg), rows)
    ensures Possible(c, s, run) && !Durable(c, Exec(c, s, run))
  {
    var a := [Seal(seg, rows), Seal(seg, later)];
    Resealed(c, s, seg, rows, later);
    var s1 := Exec(c, s, a);
    var b := WriteAlone(s1, 0, seg);
    Wrote(c, s1, 0, seg);
    var s2 := Exec(c, s1, b);
    assert s2.procs == map[0 := Written(seg)];
    var d := [Put(0, Hash), Put(0, HeadForPut)] + [Put(0, Upload(""))];
    Uploaded(c, s2, 0, seg, "");
    var s3 := Exec(c, s2, d);
    ExecConcat(c, s1, b, d);
    run := a + (b + d);
    ExecConcat(c, s, a, b + d);
    assert Piece(seg, rows) in s3.history;
    assert !NasHas(c, s3, Flat(seg), rows) && !NasHas(c, s3, Legacy(seg), rows);
  }

  /** A path that is not safe loses a piece in some run. */
  lemma UnsafeLoses(c: Config, s: State, seg: Segment) returns (run: seq<Step>)
    requires Init(s) && !SafePath(c, s, seg)
    ensures Possible(c, s, run) && !Durable(c, Exec(c, s, run))
  {
    if Sole(c, seg) {
      var rows :| c.may(seg, rows) && Legacy(seg) in s.nas && s.nas[Legacy(seg)].sha.None?
        && c.size(s.nas[Legacy(seg)].content) == c.size(c.parquet(rows)) && !OnNas(c, s, seg, rows);
      run := CollisionLoses(c, s, seg, rows);
    } else {
      var rows :| c.may(seg, rows) && !PinnedPiece(c, s, seg, rows);
      var x, y :| c.may(seg, x) && c.may(seg, y) && c.parquet(x) != c.parquet(y);
      var later := if c.parquet(x) == c.parquet(rows) then y else x;
      if OnNas(c, s, seg, rows) {
        run := OverwriteLoses(c, s, seg, rows, later);
      } else {
        run := [Seal(seg, rows), Seal(seg, later)];
        ResealLoses(c, s, seg, rows, later);
      }
    }
  }

  /** The exact condition: every run from an initial state is durable if and only if every path
      is safe.  A path is, if only one file can come of it and no unhashed legacy object passes
      for that file, or if all that may be sealed under it is on NAS out of any upload's reach. */
  lemma DurableExactly(c: Config, s: State)
    requires Init(s)
    ensures (forall steps :: Possible(c, s, steps) ==> Durable(c, Exec(c, s, steps))) <==> SafePaths(c, s)
  {
    if SafePaths(c, s) {
      forall steps | Possible(c, s, steps) ensures Durable(c, Exec(c, s, steps)) {
        SafeRuns(c, s, steps);
      }
    } else {
      var seg :| !SafePath(c, s, seg);
      var run := UnsafeLoses(c, s, seg);
    }
  }

  // ---------------------------------------------------------------- rows

  predicate ByTs(a: Record, b: Record) { a.ts <= b.ts }

  /** The Parquet rows of one WAL record: itself for a transaction, its bid and ask levels for an
      order book snapshot or depth record. */
  function Lines(explode: Record -> Rows, rows: Rows): Rows {
    if rows == [] then [] else explode(rows[0]) + Lines(explode, rows[1..])
  }

  /** The conversion of `compact_segment`: the rows of the segment's records in `ts_utc` order. */
  function SortedParquet(explode: Record -> Rows, rows: Rows): Rows { StableSort(ByTs, Lines(explode, rows)) }

  /** Its rows are the records' own, each as often, in time order. */
  lemma ParquetInOrder(explode: Record -> Rows, rows: Rows)
    ensures var file := SortedParquet(explode, rows);
            && multiset(file) == multiset(Lines(explode, rows))
            && forall i, j :: 0 <= i < j < |file| ==> file[i].ts <= file[j].ts
  {
    SortSorts(ByTs, Lines(explode, rows));
  }

  /** The Parquet rows a surviving copy holds: a WAL file yields those of its records. */
  ghost predicate Copy(c: Config, s: State, explode: Record -> Rows, seg: Segment, lines: Rows) {
    || (seg in s.sealed && lines == Lines(explode, s.sealed[seg]))
    || (seg in s.local && lines == s.local[seg])
    || (Flat(seg) in s.nas && lines == s.nas[Flat(seg)].content)
    || (Legacy(seg) in s.nas && lines == s.nas[Legacy(seg)].content)
  }

  /** Durability in terms of rows, on every channel: some surviving copy has exactly the rows of
      the records that were sealed, each as often as it was sealed. */
  lemma RowsSurvive(c: Config, s: State, steps: seq<Step>, explode: Record -> Rows, x: Piece) returns (lines: Rows)
    requires Init(s) && SafePaths(c, s) && Possible(c, s, steps)
    requires forall rows :: c.parquet(rows) == SortedParquet(explode, rows)
    requires x in Exec(c, s, steps).history
    ensures Copy(c, Exec(c, s, steps), explode, x.seg, lines)
    ensures multiset(lines) == multiset(Lines(explode, x.rows))
  {
    SafeRuns(c, s, steps);
    var t := Exec(c, s, steps);
    assert c.parquet(x.rows) == SortedParquet(explode, x.rows);
    if x.seg in t.sealed && c.parquet(t.sealed[x.seg]) == c.parquet(x.rows) {
      lines := Lines(explode, t.sealed[x.seg]);
      assert c.parquet(t.sealed[x.seg]) == SortedParquet(explode, t.sealed[x.seg]);
    } else {
      lines := c.parquet(x.rows);
    }
  }
}
