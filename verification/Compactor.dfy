/** The compactor's own code over the local disk and the NAS.  Each method states what it
    does to the files and that it is a run of the protocol, so what every run of the protocol
    keeps is kept by every call. */
module Compactor {
  import opened Basics
  import opened Durability

  /** How one NAS request ends. */
  datatype Link = Reply | ClientError | Unreachable
  datatype UploadReply = Stored(etag: string) | Queued | HardFloor | Raised
  datatype Promotion = Promoted | AlreadyPromoted | VerifyFailed | UnlinkFailed
  /** The outside during one call: the HEAD attempts, the upload, whether the file can be
      unlinked, and whether the retry queue has room for it. */
  datatype Net = Net(putHead: Link, upload: UploadReply, first: (Link, Link), second: (Link, Link),
                     unlinks: bool, accepts: bool)

  predicate HeadAnswers(links: (Link, Link)) {
    links.0.Reply? || (links.0.Unreachable? && links.1.Reply?)
  }

  ghost predicate Reaches(c: Config, s: State, t: State) {
    exists run :: Possible(c, s, run) && Exec(c, s, run) == t
  }

  /** Every call keeps the protocol's invariant, so it loses nothing. */
  lemma ReachesSafe(c: Config, s: State, t: State)
    requires Inv(c, s) && Reaches(c, s, t)
    ensures Inv(c, t) && Durable(c, t) && GraceKept(t)
  {
    var run :| Possible(c, s, run) && Exec(c, s, run) == t;
    InvRun(c, s, run);
  }

  lemma ReachesTransitive(c: Config, s: State, t: State, u: State)
    requires Reaches(c, s, t) && Reaches(c, t, u)
    ensures Reaches(c, s, u)
  {
    var a :| Possible(c, s, a) && Exec(c, s, a) == t;
    var b :| Possible(c, t, b) && Exec(c, t, b) == u;
    ExecConcat(c, s, a, b);
  }

  lemma ReachesRun(c: Config, s: State, run: seq<Step>)
    requires Possible(c, s, run)
    ensures Reaches(c, s, Exec(c, s, run))
  {
  }

  lemma ReachesStep(c: Config, s: State, t: State, step: Step)
    requires Reaches(c, s, t) && Enabled(c, t, step)
    ensures Reaches(c, s, Apply(c, t, step))
  {
    ExecOne(c, t, step);
    ReachesRun(c, t, [step]);
    ReachesTransitive(c, s, t, Apply(c, t, step));
  }

  /** What one promotion of a local file does, and when: `promote_l1` in one expression. */
  predicate Promotes(c: Config, local: map<Segment, Rows>, nas: map<Key, Object>, seg: Segment, key: Key, net: Net) {
    && Passes(c, local, nas, seg, key, net) && net.unlinks
  }

  /** All checks before the unlink. */
  predicate Passes(c: Config, local: map<Segment, Rows>, nas: map<Key, Object>, seg: Segment, key: Key, net: Net) {
    && seg in local && key in nas && HeadAnswers(net.first) && HeadAnswers(net.second)
    && Matches(c, HeadOf(c, nas[key]), local[seg])
  }

  function PromotionOf(c: Config, local: map<Segment, Rows>, nas: map<Key, Object>,
                       seg: Segment, key: Key, net: Net): (r: Promotion)
    ensures r.Promoted? <==> Promotes(c, local, nas, seg, key, net)
  {
    if seg !in local then if key in nas && HeadAnswers(net.first) then AlreadyPromoted else VerifyFailed
    else if !Passes(c, local, nas, seg, key, net) then VerifyFailed
    else if net.unlinks then Promoted else UnlinkFailed
  }

  /** Each outcome, by the requests and the bytes: a file passes when both HEADs answer, at once or
      on the one retry, the hash is its own unless none is recorded, and the size is its own. */
  lemma PromotionExactly(c: Config, local: map<Segment, Rows>, nas: map<Key, Object>, seg: Segment, key: Key, net: Net)
    ensures var r := PromotionOf(c, local, nas, seg, key, net);
            var first := net.first.0.Reply? || (net.first.0.Unreachable? && net.first.1.Reply?);
            var second := net.second.0.Reply? || (net.second.0.Unreachable? && net.second.1.Reply?);
            var passes := && seg in local && key in nas && first && second
                          && (nas[key].sha.Some? ==> nas[key].sha.value.of == local[seg])
                          && c.size(nas[key].content) == c.size(local[seg]);
            && (r.Promoted? <==> passes && net.unlinks) && (r.UnlinkFailed? <==> passes && !net.unlinks)
            && (r.AlreadyPromoted? <==> seg !in local && key in nas && first)
  {
    if seg in local { assert Digest(local[seg]).of == local[seg]; }
  }

  /** What a sweep counts: files cleaned, preserved and in error. */
  datatype Tally = Tally(cleaned: nat, preserved: nat, errors: nat)

  function Count(t: Tally, r: Promotion): Tally {
    match r
    case Promoted => t.(cleaned := t.cleaned + 1)
    case AlreadyPromoted => t.(cleaned := t.cleaned + 1)
    case VerifyFailed => t.(preserved := t.preserved + 1)
    case UnlinkFailed => t.(errors := t.errors + 1)
  }

  function TallyOf(c: Config, local: map<Segment, Rows>, nas: map<Key, Object>,
                   listing: seq<Segment>, nets: seq<Net>, n: nat): (t: Tally)
    requires n <= |listing| == |nets|
    ensures t.cleaned + t.preserved + t.errors == n
  {
    if n == 0 then Tally(0, 0, 0)
    else
      var r := PromotionOf(c, local, nas, listing[n - 1], Legacy(listing[n - 1]), nets[n - 1]);
      Count(TallyOf(c, local, nas, listing, nets, n - 1), r)
  }

  ghost predicate Counted(ends: seq<Promotion>, t: Tally) {
    && t.cleaned == multiset(ends)[Promoted] + multiset(ends)[AlreadyPromoted]
    && t.preserved == multiset(ends)[VerifyFailed] && t.errors == multiset(ends)[UnlinkFailed]
  }

  lemma CountedNext(ends: seq<Promotion>, t: Tally, r: Promotion)
    requires Counted(ends, t)
    ensures Counted(ends + [r], Count(t, r))
  {
  }

  /** The counts are those of the files that were promoted or already gone, that failed
      verification, and that could not be unlinked. */
  lemma {:induction false} TallyExactly(c: Config, local: map<Segment, Rows>, nas: map<Key, Object>,
                                        listing: seq<Segment>, nets: seq<Net>, n: nat) returns (ends: seq<Promotion>)
    requires n <= |listing| == |nets|
    ensures |ends| == n
    ensures forall i :: 0 <= i < n ==>
              ends[i] == PromotionOf(c, local, nas, listing[i], Legacy(listing[i]), nets[i])
    ensures var t := TallyOf(c, local, nas, listing, nets, n);
            && t.cleaned == multiset(ends)[Promoted] + multiset(ends)[AlreadyPromoted]
            && t.preserved == multiset(ends)[VerifyFailed] && t.errors == multiset(ends)[UnlinkFailed]
  {
    if n == 0 {
      ends := [];
    } else {
      ends := TallyExactly(c, local, nas, listing, nets, n - 1);
      var r := PromotionOf(c, local, nas, listing[n - 1], Legacy(listing[n - 1]), nets[n - 1]);
      CountedNext(ends, TallyOf(c, local, nas, listing, nets, n - 1), r);
      ends := ends + [r];
    }
  }

  // ------------------------------------------------- pieces of a run, other processes in flight

  ghost predicate At(s: State, p: nat, q: Proc) { p in s.procs && s.procs[p] == q }

  lemma StayAndDone(s: State, p: nat, q: Proc)
    requires p !in s.procs
    ensures Done(Stay(s, p, q), p) == s
  {
    assert s.procs[p := q] - {p} == s.procs;
  }

  /** A sweep's promotion is four steps of the protocol. */
  lemma SweepRuns(c: Config, s: State, p: nat, seg: Segment)
    requires p !in s.procs && seg in s.local && Legacy(seg) in s.nas
    requires Matches(c, HeadOf(c, s.nas[Legacy(seg)]), s.local[seg])
    ensures Reaches(c, s, s.(local := s.local - {seg}))
  {
    SweptAway(c, s, p, seg);
    ReachesRun(c, s, SweepAway(p, seg));
  }

  /** The promotion that follows a compaction's own upload, up to its second HEAD. */
  lemma VerifyRuns(c: Config, s: State, p: nat, seg: Segment)
    requires At(s, p, Committed(seg)) && seg in s.local && Flat(seg) in s.nas
    requires Matches(c, HeadOf(c, s.nas[Flat(seg)]), s.local[seg])
    ensures Reaches(c, s, Stay(s, p, Verified(seg, Flat(seg), HeadOf(c, s.nas[Flat(seg)]), false)))
  {
    var steps, head := [Promote(p, HeadFlat), Promote(p, Compare)], HeadOf(c, s.nas[Flat(seg)]);
    var s1 := Stay(s, p, Headed(seg, Flat(seg), head, false));
    StayTwice(s, p, Headed(seg, Flat(seg), head, false), Verified(seg, Flat(seg), head, false));
    Chain2(c, s, s1, Stay(s, p, Verified(seg, Flat(seg), head, false)), steps);
    ReachesRun(c, s, steps);
  }

  lemma UnlinkRuns(c: Config, s: State, p: nat, seg: Segment)
    requires seg in s.local && Flat(seg) in s.nas
    requires At(s, p, Verified(seg, Flat(seg), HeadOf(c, s.nas[Flat(seg)]), false))
    ensures Reaches(c, s, Stay(s.(local := s.local - {seg}), p, Marking(seg)))
  {
    var steps, t := [Promote(p, Guard), Promote(p, Unlink)], s.(local := s.local - {seg});
    var s1 := Stay(s, p, Guarded(seg, Flat(seg), false));
    StayTwice(t, p, Guarded(seg, Flat(seg), false), Marking(seg));
    Chain2(c, s, s1, Stay(t, p, Marking(seg)), steps);
    ReachesRun(c, s, steps);
  }

  /** And on to the marker. */
  lemma PromoteRuns(c: Config, s: State, p: nat, seg: Segment)
    requires At(s, p, Committed(seg)) && seg in s.local && Flat(seg) in s.nas
    requires Matches(c, HeadOf(c, s.nas[Flat(seg)]), s.local[seg])
    ensures Reaches(c, s, Stay(s.(local := s.local - {seg}), p, Marking(seg)))
  {
    var q := Verified(seg, Flat(seg), HeadOf(c, s.nas[Flat(seg)]), false);
    VerifyRuns(c, s, p, seg);
    UnlinkRuns(c, Stay(s, p, q), p, seg);
    StayTwice(s.(local := s.local - {seg}), p, q, Marking(seg));
    ReachesTransitive(c, s, Stay(s, p, q), Stay(s.(local := s.local - {seg}), p, Marking(seg)));
  }

  /** A put that fails anywhere still leads to the marker. */
  lemma GivenUp(c: Config, s: State, p: nat, q: Proc)
    requires At(s, p, q) && InPut(q)
    ensures Reaches(c, s, Stay(s, p, Marking(q.seg)))
  {
    ExecOne(c, s, Put(p, GiveUp));
    ReachesRun(c, s, [Put(p, GiveUp)]);
  }

  /** So does one whose file goes to the retry queue. */
  lemma Enqueued(c: Config, s: State, p: nat, q: Proc)
    requires At(s, p, q) && InPut(q) && q.seg in s.local
    ensures Reaches(c, s, Stay(s.(queue := s.queue + {Item(Flat(q.seg), s.local[q.seg])}), p, Marking(q.seg)))
  {
    ExecOne(c, s, Put(p, Enqueue));
    ReachesRun(c, s, [Put(p, Enqueue)]);
  }

  lemma PutFound(c: Config, s: State, p: nat, seg: Segment)
    requires At(s, p, Written(seg)) && seg in s.local && Flat(seg) in s.nas
    requires s.nas[Flat(seg)].sha == Some(Digest(s.local[seg]))
    ensures Reaches(c, s, Stay(s, p, Committed(seg)))
  {
    var d := Digest(s.local[seg]);
    StayTwice(s, p, Hashed(seg, d), Committed(seg));
    Chain2(c, s, Stay(s, p, Hashed(seg, d)), Stay(s, p, Committed(seg)), [Put(p, Hash), Put(p, HeadForPut)]);
    ReachesRun(c, s, [Put(p, Hash), Put(p, HeadForPut)]);
  }

  /** Writing the Parquet file, or finding it, brings a compaction to its put. */
  lemma WriteRuns(c: Config, s: State, p: nat, seg: Segment)
    requires p !in s.procs && seg in s.everSealed && (seg in s.local || seg in s.sealed)
    ensures Reaches(c, s, Stay(s.(local := s.local[seg := L1File(c, s, seg)]), p, Written(seg)))
  {
    Wrote(c, s, p, seg);
    ReachesRun(c, s, WriteAlone(s, p, seg));
  }

  lemma TouchRuns(c: Config, s: State, p: nat, seg: Segment)
    requires p !in s.procs
    ensures Reaches(c, Stay(s, p, Marking(seg)), Marks(s, seg))
  {
    var w := Stay(s, p, Marking(seg));
    ExecOne(c, w, Compact(p, Touch));
    ReachesRun(c, w, [Compact(p, Touch)]);
    StayAndDone(Marks(s, seg), p, Marking(seg));
  }

  /** One collected segment is three steps of the protocol. */
  lemma CollectRuns(c: Config, s: State, p: nat, seg: Segment)
    requires p !in s.procs && seg in s.marker && s.now - s.marker[seg] >= GRACE_SECONDS
    ensures Reaches(c, s, s.(sealed := s.sealed - {seg}, marker := s.marker - {seg}))
  {
    var t := s.(sealed := s.sealed - {seg});
    var s2 := Stay(t, p, Unlinked(seg));
    StayTwice(t, p, Aged(seg), Unlinked(seg));
    Chain2(c, s, Stay(s, p, Aged(seg)), s2, [Collect(p, Look(seg)), Collect(p, UnlinkSealed)]);
    ReachesRun(c, s, [Collect(p, Look(seg)), Collect(p, UnlinkSealed)]);
    ReachesStep(c, s, s2, Collect(p, UnlinkMarker));
    StayAndDone(t.(marker := s.marker - {seg}), p, Unlinked(seg));
  }

  // ------------------------------------------------- what the calls do, as functions

  /** What a failed promotion leaves to the retry queue, unless that is at its hard floor. */
  function Requeued(s: State, seg: Segment, net: Net): State
    requires seg in s.local
  {
    if net.accepts then s.(queue := s.queue + {Item(Flat(seg), s.local[seg])}) else s
  }

  /** `_promote_after_nas_put`: promote, keep the file when only the unlink fails, or requeue. */
  function AfterPut(c: Config, s: State, seg: Segment, net: Net): State
    requires seg in s.local
  {
    if Promotes(c, s.local, s.nas, seg, Flat(seg), net) then s.(local := s.local - {seg})
    else if Passes(c, s.local, s.nas, seg, Flat(seg), net) then s
    else Requeued(s, seg, net)
  }

  /** `put_l1` inside `_put_l1_nas`. */
  function AfterUpload(c: Config, s: State, seg: Segment, net: Net): State
    requires seg in s.local
  {
    var digest := Digest(s.local[seg]);
    if !net.putHead.Reply? then s
    else if NeedsUpload(s.nas, Flat(seg)) then
      match net.upload
      case Stored(etag) =>
        AfterPut(c, s.(nas := s.nas[Flat(seg) := Object(etag, Some(digest), s.local[seg])]), seg, net)
      case Queued => s.(queue := s.queue + {Item(Flat(seg), s.local[seg])})
      case HardFloor => s
      case Raised => s
    else if s.nas[Flat(seg)].sha == Some(digest) then AfterPut(c, s, seg, net)
    else s
  }

  function UploadOrNot(c: Config, s: State, seg: Segment, net: Option<Net>): State
    requires seg in s.local
  {
    if net.Some? then AfterUpload(c, s, seg, net.value) else s
  }

  function Marks(s: State, seg: Segment): State {
    s.(marker := if seg in s.marker then s.marker else s.marker[seg := s.now],
       firstMarked := if seg in s.firstMarked then s.firstMarked else s.firstMarked[seg := s.now])
  }

  function AfterCompact(c: Config, s: State, seg: Segment, net: Option<Net>): State {
    if seg !in s.local && seg !in s.sealed then s
    else
      var t := s.(local := s.local[seg := L1File(c, s, seg)]);
      Marks(UploadOrNot(c, t, seg, net), seg)
  }

  /** The segments whose marker is past its 24 hours. */
  function Expired(s: State): set<Segment> {
    set seg | seg in s.marker && s.now - s.marker[seg] >= GRACE_SECONDS
  }

  /** As above, with seven days for a segment whose archive failed. */
  function ExpiredExtended(s: State, sentinel: set<Segment>): set<Segment> {
    set seg | seg in s.marker &&
      s.now - s.marker[seg] >= (if seg in sentinel then ARCHIVE_FAILED_GRACE_SECONDS else GRACE_SECONDS)
  }

  function Collected(s: State, gone: set<Segment>): State {
    s.(sealed := s.sealed - gone, marker := s.marker - gone)
  }

  /** The listed files among the first `n` that a sweep verifies and removes. */
  function Cleanable(c: Config, local: map<Segment, Rows>, nas: map<Key, Object>,
                     listing: seq<Segment>, nets: seq<Net>, n: nat): set<Segment>
    requires n <= |listing| == |nets|
  {
    if n == 0 then {}
    else
      var rest := Cleanable(c, local, nas, listing, nets, n - 1);
      if Promotes(c, local, nas, listing[n - 1], Legacy(listing[n - 1]), nets[n - 1])
      then rest + {listing[n - 1]} else rest
  }

  // ------------------------------------------------- every call is a run of the protocol

  lemma AfterPutRuns(c: Config, s: State, p: nat, seg: Segment, net: Net)
    requires At(s, p, Committed(seg)) && seg in s.local && Flat(seg) in s.nas
    ensures Reaches(c, s, Stay(AfterPut(c, s, seg, net), p, Marking(seg)))
  {
    if Promotes(c, s.local, s.nas, seg, Flat(seg), net) {
      PromoteRuns(c, s, p, seg);
    } else if Passes(c, s.local, s.nas, seg, Flat(seg), net) || !net.accepts {
      GivenUp(c, s, p, Committed(seg));
    } else {
      Enqueued(c, s, p, Committed(seg));
    }
  }

  lemma AfterPutIgnoresProcs(c: Config, s: State, p: nat, q: Proc, seg: Segment, net: Net)
    requires seg in s.local
    ensures AfterPut(c, Stay(s, p, q), seg, net) == Stay(AfterPut(c, s, seg, net), p, q)
  {
  }

  /** A put that is acknowledged goes on to its promotion. */
  lemma CommittedRuns(c: Config, w: State, s: State, p: nat, seg: Segment, net: Net)
    requires Reaches(c, w, Stay(s, p, Committed(seg))) && seg in s.local && Flat(seg) in s.nas
    ensures Reaches(c, w, Stay(AfterPut(c, s, seg, net), p, Marking(seg)))
  {
    var t := Stay(s, p, Committed(seg));
    AfterPutRuns(c, t, p, seg, net);
    AfterPutIgnoresProcs(c, s, p, Committed(seg), seg, net);
    StayTwice(AfterPut(c, s, seg, net), p, Committed(seg), Marking(seg));
    ReachesTransitive(c, w, t, Stay(AfterPut(c, s, seg, net), p, Marking(seg)));
  }

  lemma UploadedRuns(c: Config, s: State, p: nat, seg: Segment, net: Net)
    requires seg in s.local && net.upload.Stored? && NeedsUpload(s.nas, Flat(seg))
    ensures var o := Object(net.upload.etag, Some(Digest(s.local[seg])), s.local[seg]);
            Reaches(c, Stay(s, p, Written(seg)),
                    Stay(AfterPut(c, s.(nas := s.nas[Flat(seg) := o]), seg, net), p, Marking(seg)))
  {
    var w, etag := Stay(s, p, Written(seg)), net.upload.etag;
    var t := s.(nas := s.nas[Flat(seg) := Object(etag, Some(Digest(s.local[seg])), s.local[seg])]);
    Uploaded(c, w, p, seg, etag);
    ReachesRun(c, w, [Put(p, Hash), Put(p, HeadForPut)] + [Put(p, Upload(etag))]);
    StayTwice(t, p, Written(seg), Committed(seg));
    CommittedRuns(c, w, t, p, seg, net);
  }

  lemma FoundRuns(c: Config, s: State, p: nat, seg: Segment, net: Net)
    requires seg in s.local && Flat(seg) in s.nas && s.nas[Flat(seg)].sha == Some(Digest(s.local[seg]))
    ensures Reaches(c, Stay(s, p, Written(seg)), Stay(AfterPut(c, s, seg, net), p, Marking(seg)))
  {
    var w := Stay(s, p, Written(seg));
    PutFound(c, w, p, seg);
    StayTwice(s, p, Written(seg), Committed(seg));
    CommittedRuns(c, w, s, p, seg, net);
  }

  lemma AbandonedRuns(c: Config, s: State, p: nat, seg: Segment)
    ensures Reaches(c, Stay(s, p, Written(seg)), Stay(s, p, Marking(seg)))
  {
    GivenUp(c, Stay(s, p, Written(seg)), p, Written(seg));
    StayTwice(s, p, Written(seg), Marking(seg));
  }

  lemma QueuedRuns(c: Config, s: State, p: nat, seg: Segment)
    requires seg in s.local
    ensures Reaches(c, Stay(s, p, Written(seg)),
                    Stay(s.(queue := s.queue + {Item(Flat(seg), s.local[seg])}), p, Marking(seg)))
  {
    Enqueued(c, Stay(s, p, Written(seg)), p, Written(seg));
    StayTwice(s.(queue := s.queue + {Item(Flat(seg), s.local[seg])}), p, Written(seg), Marking(seg));
  }

  lemma AfterUploadRuns(c: Config, s: State, p: nat, seg: Segment, net: Net)
    requires seg in s.local
    ensures Reaches(c, Stay(s, p, Written(seg)), Stay(AfterUpload(c, s, seg, net), p, Marking(seg)))
  {
    if !net.putHead.Reply? {
      AbandonedRuns(c, s, p, seg);
    } else if NeedsUpload(s.nas, Flat(seg)) {
      match net.upload
      case Stored(_) => UploadedRuns(c, s, p, seg, net);
      case Queued => QueuedRuns(c, s, p, seg);
      case HardFloor => AbandonedRuns(c, s, p, seg);
      case Raised => AbandonedRuns(c, s, p, seg);
    } else if s.nas[Flat(seg)].sha == Some(Digest(s.local[seg])) {
      FoundRuns(c, s, p, seg, net);
    } else {
      AbandonedRuns(c, s, p, seg);
    }
  }

  lemma PutAndTouchRuns(c: Config, s: State, p: nat, seg: Segment, net: Option<Net>)
    requires p !in s.procs && seg in s.local
    ensures Reaches(c, Stay(s, p, Written(seg)), Marks(UploadOrNot(c, s, seg, net), seg))
  {
    var u := UploadOrNot(c, s, seg, net);
    if net.Some? { AfterUploadRuns(c, s, p, seg, net.value); } else { AbandonedRuns(c, s, p, seg); }
    UploadKeepsProcs(c, s, seg, net);
    TouchRuns(c, u, p, seg);
    ReachesTransitive(c, Stay(s, p, Written(seg)), Stay(u, p, Marking(seg)), Marks(u, seg));
  }

  lemma UploadKeepsProcs(c: Config, s: State, seg: Segment, net: Option<Net>)
    requires seg in s.local
    ensures UploadOrNot(c, s, seg, net).procs == s.procs
  {
    if net.Some? { UploadLeaves(c, s, seg, net.value); }
  }

  /** A compaction, whatever the network does and whatever else is in flight, is a run of the
      protocol. */
  lemma CompactReaches(c: Config, s: State, p: nat, seg: Segment, net: Option<Net>)
    requires p !in s.procs && seg in s.everSealed
    ensures Reaches(c, s, AfterCompact(c, s, seg, net))
  {
    if seg !in s.local && seg !in s.sealed {
      ReachesRun(c, s, []);
    } else {
      var t := s.(local := s.local[seg := L1File(c, s, seg)]);
      WriteRuns(c, s, p, seg);
      PutAndTouchRuns(c, t, p, seg, net);
      ReachesTransitive(c, s, Stay(t, p, Written(seg)), AfterCompact(c, s, seg, net));
    }
  }

  lemma CollectedTwice(s: State, seg: Segment, rest: set<Segment>)
    requires seg !in rest && rest <= Expired(s)
    ensures Collected(Collected(s, {seg}), rest) == Collected(s, rest + {seg}) && rest <= Expired(Collected(s, {seg}))
  {
    assert s.sealed - {seg} - rest == s.sealed - (rest + {seg});
    assert s.marker - {seg} - rest == s.marker - (rest + {seg});
  }

  /** So is collecting any set of aged segments, in whatever order they are visited. */
  lemma {:induction false} CollectReaches(c: Config, s: State, p: nat, gone: set<Segment>)
    requires p !in s.procs && gone <= Expired(s)
    ensures Reaches(c, s, Collected(s, gone))
    decreases gone
  {
    if gone == {} {
      ReachesRun(c, s, []);
      assert Collected(s, gone) == s;
    } else {
      var seg :| seg in gone;
      var t, rest := Collected(s, {seg}), gone - {seg};
      CollectRuns(c, s, p, seg);
      CollectedTwice(s, seg, rest);
      CollectReaches(c, t, p, rest);
      ReachesTransitive(c, s, t, Collected(t, rest));
      assert rest + {seg} == gone;
    }
  }

  /** A failed archive is kept longer, never shorter. */
  lemma ExtensionReaches(c: Config, s: State, p: nat, sentinel: set<Segment>)
    requires p !in s.procs
    ensures Reaches(c, s, Collected(s, ExpiredExtended(s, sentinel)))
  {
    CollectReaches(c, s, p, ExpiredExtended(s, sentinel));
  }

  lemma {:induction false} CleanableMeans(c: Config, local: map<Segment, Rows>, nas: map<Key, Object>,
                                          listing: seq<Segment>, nets: seq<Net>, n: nat, seg: Segment)
    requires n <= |listing| == |nets|
    ensures seg in Cleanable(c, local, nas, listing, nets, n) <==>
            exists i :: 0 <= i < n && seg == listing[i] && Promotes(c, local, nas, seg, Legacy(seg), nets[i])
  {
    if n > 0 { CleanableMeans(c, local, nas, listing, nets, n - 1, seg); }
  }

  /** One file of a sweep: what is left after it. */
  lemma SweepStep(c: Config, before: map<Segment, Rows>, nas: map<Key, Object>,
                  listing: seq<Segment>, nets: seq<Net>, n: nat, now: map<Segment, Rows>)
    requires n < |listing| == |nets|
    requires forall i, j :: 0 <= i < j < |listing| ==> listing[i] != listing[j]
    requires now == before - Cleanable(c, before, nas, listing, nets, n)
    ensures listing[n] in now <==> listing[n] in before
    ensures listing[n] in now ==> now[listing[n]] == before[listing[n]]
    ensures Promotes(c, now, nas, listing[n], Legacy(listing[n]), nets[n])
            <==> Promotes(c, before, nas, listing[n], Legacy(listing[n]), nets[n])
    ensures PromotionOf(c, now, nas, listing[n], Legacy(listing[n]), nets[n])
            == PromotionOf(c, before, nas, listing[n], Legacy(listing[n]), nets[n])
    ensures before - Cleanable(c, before, nas, listing, nets, n + 1) ==
            if Promotes(c, now, nas, listing[n], Legacy(listing[n]), nets[n]) then now - {listing[n]} else now
  {
    CleanableMeans(c, before, nas, listing, nets, n, listing[n]);
    RemoveOneMore(before, Cleanable(c, before, nas, listing, nets, n), listing[n]);
  }

  lemma RemoveOneMore<V>(m: map<Segment, V>, gone: set<Segment>, seg: Segment)
    ensures (m - gone) - {seg} == m - (gone + {seg})
  {
  }

  /** And a cleanup sweep. */
  lemma {:induction false} CleanReaches(c: Config, s: State, p: nat, listing: seq<Segment>, nets: seq<Net>, n: nat)
    requires p !in s.procs && n <= |listing| == |nets|
    requires forall i, j :: 0 <= i < j < |listing| ==> listing[i] != listing[j]
    ensures Reaches(c, s, Cleaned(s, Cleanable(c, s.local, s.nas, listing, nets, n)))
  {
    if n == 0 {
      ReachesRun(c, s, []);
      assert s.local - {} == s.local;
    } else {
      CleanReaches(c, s, p, listing, nets, n - 1);
      var gone := Cleanable(c, s.local, s.nas, listing, nets, n - 1);
      var seg := listing[n - 1];
      if Promotes(c, s.local, s.nas, seg, Legacy(seg), nets[n - 1]) {
        CleanableMeans(c, s.local, s.nas, listing, nets, n - 1, seg);
        SweepOneMore(c, s, p, gone, seg);
      }
    }
  }

  function Cleaned(s: State, gone: set<Segment>): State { s.(local := s.local - gone) }

  lemma SweepOneMore(c: Config, s: State, p: nat, gone: set<Segment>, seg: Segment)
    requires p !in s.procs && Reaches(c, s, Cleaned(s, gone)) && seg in s.local && seg !in gone
    requires Legacy(seg) in s.nas && Matches(c, HeadOf(c, s.nas[Legacy(seg)]), s.local[seg])
    ensures Reaches(c, s, Cleaned(s, gone + {seg}))
  {
    var t := Cleaned(s, gone);
    RemoveOneMore(s.local, gone, seg);
    SweepRuns(c, t, p, seg);
    ReachesTransitive(c, s, t, t.(local := t.local - {seg}));
  }

  lemma AfterPutLeaves(c: Config, s: State, seg: Segment, net: Net)
    requires seg in s.local
    ensures var t := AfterPut(c, s, seg, net);
            && t == s.(local := t.local, queue := t.queue)
            && t.local == if seg in t.local then s.local else s.local - {seg}
  {
  }

  /** An upload touches one key, and removes the local file only once that key has its hash. */
  lemma UploadLeaves(c: Config, s: State, seg: Segment, net: Net)
    requires seg in s.local
    ensures var t := AfterUpload(c, s, seg, net);
            && t == s.(local := t.local, nas := t.nas, queue := t.queue)
            && t.nas - {Flat(seg)} == s.nas - {Flat(seg)}
            && (if seg in t.local then t.local == s.local
                else t.local == s.local - {seg} && Flat(seg) in t.nas
                     && t.nas[Flat(seg)].sha == Some(Digest(s.local[seg])))
  {
    if !net.putHead.Reply? {
    } else if NeedsUpload(s.nas, Flat(seg)) {
      if net.upload.Stored? {
        var o := Object(net.upload.etag, Some(Digest(s.local[seg])), s.local[seg]);
        var u := s.(nas := s.nas[Flat(seg) := o]);
        assert u.nas - {Flat(seg)} == s.nas - {Flat(seg)};
        AfterPutLeaves(c, u, seg, net);
      }
    } else {
      AfterPutLeaves(c, s, seg, net);
    }
  }

  /** The HEAD before the upload answers, and the NAS has no object or one without a hash. */
  predicate Sends(s: State, seg: Segment, net: Net) {
    net.putHead.Reply? && (Flat(seg) in s.nas ==> s.nas[Flat(seg)].sha.None?)
  }

  /** What the promotion after a put does to the one file and the retry queue. */
  lemma AfterPutEnds(c: Config, s: State, seg: Segment, net: Net)
    requires seg in s.local && Flat(seg) in s.nas && s.nas[Flat(seg)].sha == Some(Digest(s.local[seg]))
    ensures var t := AfterPut(c, s, seg, net);
            && t.nas == s.nas && (seg !in t.local <==> Confirmed(c, s.nas[Flat(seg)], s.local[seg], net) && net.unlinks)
            && t.queue == (if !Confirmed(c, s.nas[Flat(seg)], s.local[seg], net) && net.accepts
                           then s.queue + {Item(Flat(seg), s.local[seg])} else s.queue)
  {
    assert Passes(c, s.local, s.nas, seg, Flat(seg), net) <==> Confirmed(c, s.nas[Flat(seg)], s.local[seg], net);
  }

  /** Both HEADs answer and the size is the file's. */
  predicate Confirmed(c: Config, o: Object, file: Rows, net: Net) {
    HeadAnswers(net.first) && HeadAnswers(net.second) && c.size(o.content) == c.size(file)
  }

  lemma SentEnds(c: Config, s: State, seg: Segment, net: Net)
    requires seg in s.local && Sends(s, seg, net)
    ensures var t := AfterUpload(c, s, seg, net);
            if net.upload.Stored? then
              var o := Object(net.upload.etag, Some(Digest(s.local[seg])), s.local[seg]);
              t == AfterPut(c, s.(nas := s.nas[Flat(seg) := o]), seg, net)
            else
              t == s.(queue := if net.upload.Queued? then s.queue + {Item(Flat(seg), s.local[seg])} else s.queue)
  {
  }

  lemma NotSentEnds(c: Config, s: State, seg: Segment, net: Net)
    requires seg in s.local && !Sends(s, seg, net)
    ensures AfterUpload(c, s, seg, net) ==
            if net.putHead.Reply? && s.nas[Flat(seg)].sha == Some(Digest(s.local[seg])) then AfterPut(c, s, seg, net)
            else s
  {
  }

  /** What an upload does to the NAS: a file that is sent and acknowledged is there under its flat
      key with its own bytes and hash, and nothing else is written. */
  lemma UploadStores(c: Config, s: State, seg: Segment, net: Net)
    requires seg in s.local
    ensures AfterUpload(c, s, seg, net).nas ==
            if Sends(s, seg, net) && net.upload.Stored?
            then s.nas[Flat(seg) := Object(net.upload.etag, Some(Digest(s.local[seg])), s.local[seg])] else s.nas
  {
    if Sends(s, seg, net) {
      SentEnds(c, s, seg, net);
      if net.upload.Stored? {
        var o := Object(net.upload.etag, Some(Digest(s.local[seg])), s.local[seg]);
        AfterPutEnds(c, s.(nas := s.nas[Flat(seg) := o]), seg, net);
      }
    } else {
      NotSentEnds(c, s, seg, net);
      if net.putHead.Reply? && s.nas[Flat(seg)].sha == Some(Digest(s.local[seg])) { AfterPutEnds(c, s, seg, net); }
    }
  }

  /** The NAS has the file after a put that did not fail. */
  predicate Acknowledged(s: State, seg: Segment, net: Net)
    requires seg in s.local
  {
    if Sends(s, seg, net) then net.upload.Stored?
    else net.putHead.Reply? && s.nas[Flat(seg)].sha == Some(Digest(s.local[seg]))
  }

  /** What it does to the file and the retry queue: the file goes in the queue if the upload is
      queued, or if the NAS has it but does not confirm it and the queue has room; it is unlinked
      if the NAS has and confirms it. */
  lemma UploadQueues(c: Config, s: State, seg: Segment, net: Net)
    requires seg in s.local
    ensures var t, file := AfterUpload(c, s, seg, net), s.local[seg];
            var there := Acknowledged(s, seg, net);
            && (there ==> Flat(seg) in t.nas && t.nas[Flat(seg)].sha == Some(Digest(file)))
            && (seg !in t.local <==> there && Confirmed(c, t.nas[Flat(seg)], file, net) && net.unlinks)
            && t.queue == (if || (Sends(s, seg, net) && net.upload.Queued?)
                              || (there && !Confirmed(c, t.nas[Flat(seg)], file, net) && net.accepts)
                           then s.queue + {Item(Flat(seg), file)} else s.queue)
  {
    if Sends(s, seg, net) {
      SentEnds(c, s, seg, net);
      if net.upload.Stored? {
        var o := Object(net.upload.etag, Some(Digest(s.local[seg])), s.local[seg]);
        AfterPutEnds(c, s.(nas := s.nas[Flat(seg) := o]), seg, net);
      }
    } else {
      NotSentEnds(c, s, seg, net);
      if Acknowledged(s, seg, net) { AfterPutEnds(c, s, seg, net); }
    }
  }

  /** What a compaction leaves behind, first or repeated, under any network: the marker, and the
      one L1 file of this segment either in place or under the flat key with its own hash.  Other
      segments are not touched. */
  lemma CompactLeaves(c: Config, s: State, seg: Segment, net: Option<Net>)
    requires seg in s.local || seg in s.sealed
    ensures var t := AfterCompact(c, s, seg, net);
            && t.marker == (if seg in s.marker then s.marker else s.marker[seg := s.now]) && t.sealed == s.sealed
            && t.nas - {Flat(seg)} == s.nas - {Flat(seg)}
            && (if seg in t.local then t.local == s.local[seg := L1File(c, s, seg)]
                else t.local == s.local - {seg} && Flat(seg) in t.nas
                     && t.nas[Flat(seg)].sha == Some(Digest(L1File(c, s, seg))))
  {
    var t := s.(local := s.local[seg := L1File(c, s, seg)]);
    if net.Some? { UploadLeaves(c, t, seg, net.value); }
    assert t.local - {seg} == s.local - {seg};
  }

  /** Re-running a compaction after a crash, whatever the network does this time, leads from any
      reachable state to the marker and the segment's file, here or on NAS. */
  lemma RerunLeaves(c: Config, s: State, p: nat, seg: Segment, net: Option<Net>)
    requires Inv(c, s) && p !in s.procs && seg in s.everSealed && seg in s.sealed
    ensures var t := AfterCompact(c, s, seg, net);
            && Reaches(c, s, t) && Inv(c, t) && t.procs == s.procs && seg in t.marker
            && (forall rows :: c.may(seg, rows) ==> StoredPiece(c, t, seg, rows))
    ensures Sole(c, seg) ==> L1File(c, s, seg) == c.parquet(s.sealed[seg])
  {
    CompactReaches(c, s, p, seg, net);
    CompactLeaves(c, s, seg, net);
    var t := AfterCompact(c, s, seg, net);
    ReachesSafe(c, s, t);
    UploadKeepsProcs(c, s.(local := s.local[seg := L1File(c, s, seg)]), seg, net);
    assert seg in t.firstMarked && Durability.Stored(c, t, seg);
  }

  // ------------------------------------------------- the code

  /** A call that takes a worker number `p` not in use by the others is a run of the protocol. */
  class Node {
    var sealed: map<Segment, Rows>
    var marker: map<Segment, int>
    var sentinel: set<Segment>
    var local: map<Segment, Rows>
    var nas: map<Key, Object>
    var queue: set<Item>
    var now: int
    ghost var others: map<nat, Proc>   // workers in flight, timed out or not
    ghost var everSealed: set<Segment>
    ghost var history: set<Piece>
    ghost var firstMarked: map<Segment, int>

    ghost function Abs(): State
      reads this
    {
      State(sealed, marker, local, nas, queue, now, others, everSealed, history, firstMarked)
    }

    /** `_head_with_retry`: one retry, and only after a connection error. */
    method HeadWithRetry(c: Config, key: Key, links: (Link, Link)) returns (head: Option<Head>)
      ensures head.Some? <==> key in nas && (links.0.Reply? || (links.0.Unreachable? && links.1.Reply?))
      ensures head.Some? ==> head.value == HeadOf(c, nas[key])
    {
      var attempts := 0;
      while attempts < 2
        invariant 0 <= attempts <= 2
        invariant attempts >= 1 ==> links.0.Unreachable?
        invariant attempts == 2 ==> links.1.Unreachable?
      {
        var link := if attempts == 0 then links.0 else links.1;
        attempts := attempts + 1;
        match link {
          case Reply =>
            if key in nas { return Some(HeadOf(c, nas[key])); }
            return None;
          case ClientError => return None;
          case Unreachable =>
        }
      }
      return None;
    }

    /** `promote_l1`: the local file goes exactly when both HEADs answer, hash and size agree and
        the unlink succeeds. */
    method PromoteL1(c: Config, seg: Segment, key: Key, net: Net) returns (r: Promotion)
      modifies this`local
      ensures r == PromotionOf(c, old(local), nas, seg, key, net)
      ensures local == if r.Promoted? then old(local) - {seg} else old(local)
    {
      if seg !in local {
        var there := HeadWithRetry(c, key, net.first);
        return if there.Some? then AlreadyPromoted else VerifyFailed;
      }
      var head := HeadWithRetry(c, key, net.first);
      if head.None? { return VerifyFailed; }
      if head.value.sha.Some? && head.value.sha.value != Digest(local[seg]) { return VerifyFailed; }
      if head.value.length != c.size(local[seg]) { return VerifyFailed; }
      var guard := HeadWithRetry(c, key, net.second);
      if guard.None? { return VerifyFailed; }
      if guard.value.etag != head.value.etag || guard.value.length != head.value.length { return VerifyFailed; }
      if !net.unlinks { return UnlinkFailed; }
      local := local - {seg};
      return Promoted;
    }

    /** `put_l1`: upload the L1 file unless the NAS has it, then promote or queue it. */
    method PutL1(c: Config, seg: Segment, net: Net)
      requires seg in local
      modifies this`local, this`nas, this`queue
      ensures Abs() == AfterUpload(c, old(Abs()), seg, net)
    {
      if !net.putHead.Reply? { return; }
      var digest := Digest(local[seg]);
      if NeedsUpload(nas, Flat(seg)) {
        match net.upload {
          case Stored(etag) => nas := nas[Flat(seg) := Object(etag, Some(digest), local[seg])];
          case Queued =>
            queue := queue + {Item(Flat(seg), local[seg])};
            return;
          case HardFloor => return;
          case Raised => return;
        }
      } else if nas[Flat(seg)].sha != Some(digest) {
        return;
      }
      var r := PromoteL1(c, seg, Flat(seg), net);
      if r.VerifyFailed? && net.accepts {
        queue := queue + {Item(Flat(seg), local[seg])};
      }
    }

    /** `compact_segment`, also on what a crash left behind: the Parquet file is written unless
        it is there, uploaded if a dual writer is configured, and the marker is touched. */
    method CompactSegment(c: Config, seg: Segment, net: Option<Net>, ghost p: nat) returns (ok: bool)
      modifies this`local, this`nas, this`queue, this`marker, this`firstMarked
      ensures ok <==> seg in old(local) || seg in old(sealed)
      ensures Abs() == AfterCompact(c, old(Abs()), seg, net)
      ensures p !in others && seg in everSealed ==> Reaches(c, old(Abs()), Abs())
    {
      if p !in others && seg in everSealed { CompactReaches(c, Abs(), p, seg, net); }
      if seg !in local {
        if seg !in sealed { return false; }
        local := local[seg := c.parquet(sealed[seg])];
      }
      assert local == old(local)[seg := L1File(c, old(Abs()), seg)];
      if net.Some? { PutL1(c, seg, net.value); }
      if seg !in marker { marker := marker[seg := now]; }
      if seg !in firstMarked { firstMarked := firstMarked[seg := now]; }
      return true;
    }

    /** `run_gc`: exactly the segments whose marker is 24 hours old go, file and marker together. */
    method RunGc(ghost c: Config, ghost p: nat)
      modifies this`sealed, this`marker
      ensures Abs() == Collected(old(Abs()), Expired(old(Abs())))
      ensures forall seg :: seg in marker <==> seg in old(marker) && now - old(marker)[seg] < 86400
      ensures forall seg :: seg in sealed <==>
                seg in old(sealed) && (seg in old(marker) ==> now - old(marker)[seg] < 86400)
      ensures p !in others ==> Reaches(c, old(Abs()), Abs())
    {
      if p !in others { CollectReaches(c, Abs(), p, Expired(Abs())); }
      var todo := marker.Keys;
      ghost var done := {};
      while todo != {}
        invariant todo <= marker.Keys
        invariant done == Expired(old(Abs())) - todo
        invariant sealed == old(sealed) - done && marker == old(marker) - done
      {
        var seg :| seg in todo;
        if now - marker[seg] >= GRACE_SECONDS {
          sealed, marker, done := sealed - {seg}, marker - {seg}, done + {seg};
        }
        todo := todo - {seg};
      }
    }

    /** `run_gc_with_extension`: a failed archive keeps its segment for seven days, and every
        segment dropped in spite of that is reported. */
    method RunGcWithExtension(ghost c: Config, ghost p: nat) returns (alerts: set<Segment>)
      modifies this`sealed, this`marker, this`sentinel
      ensures Abs() == old(Abs()).(sealed := sealed, marker := marker)
      ensures forall seg :: seg in marker <==>
                seg in old(marker) && now - old(marker)[seg] < if seg in old(sentinel) then 7 * 86400 else 86400
      ensures forall seg :: seg in sealed <==>
                seg in old(sealed) && (seg in old(marker) ==>
                  now - old(marker)[seg] < if seg in old(sentinel) then 7 * 86400 else 86400)
      ensures forall seg :: seg in sentinel <==>
                seg in old(sentinel) && (seg in old(marker) ==> now - old(marker)[seg] < 7 * 86400)
      ensures forall seg :: seg in alerts <==>
                seg in old(sentinel) && seg in old(marker) && now - old(marker)[seg] >= 7 * 86400
      ensures p !in others ==> Reaches(c, old(Abs()), Abs())
    {
      if p !in others { ExtensionReaches(c, Abs(), p, sentinel); }
      var todo := marker.Keys;
      ghost var gone, done := ExpiredExtended(Abs(), sentinel), {};
      alerts := {};
      while todo != {}
        invariant todo <= marker.Keys
        invariant done == gone - todo
        invariant sealed == old(sealed) - done && marker == old(marker) - done
        invariant sentinel == old(sentinel) - done && alerts == old(sentinel) * done
      {
        var seg :| seg in todo;
        if now - marker[seg] >= (if seg in sentinel then ARCHIVE_FAILED_GRACE_SECONDS else GRACE_SECONDS) {
          RemoveOneMore(old(sealed), done, seg);
          RemoveOneMore(old(marker), done, seg);
          if seg in sentinel { alerts := alerts + {seg}; }
          sealed, marker, sentinel, done := sealed - {seg}, marker - {seg}, sentinel - {seg}, done + {seg};
        }
        todo := todo - {seg};
      }
    }

    /** `scan_and_cleanup_legacy` over the files listed at its start, some of which may be gone
        by now: at most `limit` are tried, each is counted as what became of it, and exactly the
        verified ones go. */
    method ScanAndCleanupLegacy(c: Config, listing: seq<Segment>, limit: nat, nets: seq<Net>, ghost p: nat)
      returns (cleaned: nat, preserved: nat, errors: nat)
      requires |nets| == |listing|
      requires forall i, j :: 0 <= i < j < |listing| ==> listing[i] != listing[j]
      modifies this`local
      ensures cleaned + preserved + errors == if limit < |listing| then limit else |listing|
      ensures local == old(local) - Cleanable(c, old(local), nas, listing, nets, cleaned + preserved + errors)
      ensures Tally(cleaned, preserved, errors)
              == TallyOf(c, old(local), nas, listing, nets, cleaned + preserved + errors)
      ensures p !in others ==> Reaches(c, old(Abs()), Abs())
    {
      cleaned, preserved, errors := 0, 0, 0;
      var n := 0;
      ghost var before := local;
      while n < |listing|
        invariant 0 <= n <= |listing| && cleaned + preserved + errors == n && n <= limit
        invariant local == before - Cleanable(c, before, nas, listing, nets, n)
        invariant Tally(cleaned, preserved, errors) == TallyOf(c, before, nas, listing, nets, n)
      {
        if cleaned + preserved + errors >= limit { break; }
        var seg := listing[n];
        SweepStep(c, before, nas, listing, nets, n, local);
        var r := PromoteL1(c, seg, Legacy(seg), nets[n]);
        match r {
          case Promoted => cleaned := cleaned + 1;
          case AlreadyPromoted => cleaned := cleaned + 1;
          case VerifyFailed => preserved := preserved + 1;
          case UnlinkFailed => errors := errors + 1;
        }
        n := n + 1;
      }
      if p !in others { CleanReaches(c, old(Abs()), p, listing, nets, n); }
    }
  }
}
