/** What the dead-letter queue keeps over every run of puts, removals, failures and restarts. */
module DlqInvariant {
  import opened Types
  import opened Seqs
  import opened DlqState

  // ---- File names -------------------------------------------------------------------------

  lemma SuffixOf(a: string, b: string)
    ensures EndsWith(a + b, b) && TrimSuffix(a + b, b) == a
  {
  }

  /** Two providers share a file exactly when one is named like the other's poison file. */
  lemma PathsCollide(p: string, q: string)
    ensures RegularPath(p) == RegularPath(q) <==> p == q
    ensures PoisonPath(p) == PoisonPath(q) <==> p == q
    ensures RegularPath(q) == PoisonPath(p) <==> q == p + POISON
  {
    SuffixOf(p, JSONL);
    SuffixOf(q, JSONL);
    SuffixOf(p + POISON, JSONL);
    SuffixOf(q + POISON, JSONL);
    SuffixOf(p, POISON);
    SuffixOf(q, POISON);
  }

  /** Two providers, or one, that share no file. */
  predicate NoClash(p: string, q: string) {
    q != p + POISON && p != q + POISON
  }

  /** No two of these providers share a file. */
  ghost predicate Apart(providers: set<string>) {
    forall p, q :: p in providers && q in providers ==> NoClash(p, q)
  }

  predicate PlainName(p: string) {
    !EndsWith(p, POISON)
  }

  lemma PlainNamesApart(providers: set<string>)
    requires forall p :: p in providers ==> PlainName(p)
    ensures Apart(providers)
  {
    forall p, q | p in providers && q in providers ensures NoClash(p, q) {
      SuffixOf(p, POISON);
      SuffixOf(q, POISON);
    }
  }

  /** The scan attributes a poison file to its provider always, and a regular one exactly when the
      provider's name does not end in .poison. */
  lemma PathsAttributed(p: string)
    ensures EndsWith(RegularPath(p), JSONL) && (ProviderOf(RegularPath(p)) == p <==> PlainName(p))
    ensures EndsWith(PoisonPath(p), JSONL) && ProviderOf(PoisonPath(p)) == p
  {
    SuffixOf(p, JSONL);
    SuffixOf(p + POISON, JSONL);
    SuffixOf(p, POISON);
  }

  // ---- The invariant ----------------------------------------------------------------------

  ghost predicate HasId(recs: seq<Record>, id: string) {
    exists r :: r in recs && r.event.id == id
  }

  /** A provider's records have plausible attempt numbers, in the poison file none that the counter has
      not seen, and one home per id. */
  ghost predicate Homes(s: Store, p: string) {
    && (forall r :: r in List(s, p) ==> 1 <= r.attempts <= 2)
    && (forall r :: r in ListPoison(s, p) ==> 2 <= r.attempts <= Attempts(s, p, r.event.id))
    && OneHome(s, p)
  }

  /** No id is in both files of the provider. */
  ghost predicate OneHome(s: Store, p: string) {
    forall r, q :: r in List(s, p) && q in ListPoison(s, p) ==> r.event.id != q.event.id
  }

  ghost predicate AllHomes(s: Store, providers: set<string>) {
    forall p :: p in providers ==> Homes(s, p)
  }

  /** The depth is the number of records on disk. */
  predicate DepthExact(s: Store, p: string) {
    Depth(s, p) == |List(s, p)| + |ListPoison(s, p)|
  }

  /** The records of a provider. */
  function OnFile(s: Store, p: string): seq<Record> {
    List(s, p) + ListPoison(s, p)
  }

  /** The counter of every id with a record on disk is the largest attempt number recorded. */
  ghost predicate AttemptsExact(s: Store, p: string) {
    forall r :: r in OnFile(s, p) ==>
      Recorded(OnFile(s, p), r.event.id, Attempts(s, p, r.event.id))
  }

  ghost predicate Recorded(recs: seq<Record>, id: string, n: nat) {
    && (exists r :: r in recs && r.event.id == id && r.attempts == n)
    && (forall r :: r in recs && r.event.id == id ==> r.attempts <= n)
  }

  // ---- Filtering --------------------------------------------------------------------------

  lemma {:induction false} KeptIs(recs: seq<Record>, remove: set<string>)
    ensures |Kept(recs, remove)| <= |recs|
    ensures forall r :: r in Kept(recs, remove) <==> r in recs && r.event.id !in remove
    ensures |Kept(recs, remove)| == |recs| <==> Kept(recs, remove) == recs
    ensures Kept(recs, remove) == recs <==> forall r :: r in recs ==> r.event.id !in remove
  {
    if recs == [] {
    } else {
      var n := |recs| - 1;
      KeptIs(recs[..n], remove);
      SplitLast(recs);
      assert forall r :: r in recs <==> r in recs[..n] || r == recs[n];
    }
  }

  /** After a rewrite a file holds exactly the other records; every other file is untouched. */
  lemma RewriteFileIs(files: map<string, seq<Record>>, path: string, remove: set<string>, io: RewriteIo, other: string)
    ensures var r := RewriteFile(files, path, remove, io);
            && ReadRecords(r.files, other) ==
                 (if other == path && io.replaceOk then Kept(ReadRecords(files, path), remove) else ReadRecords(files, other))
            && (r.ok <==> Passes(ReadRecords(files, path), remove, io))
            && (r.ok ==> r.removed == |ReadRecords(files, path)| - |Kept(ReadRecords(files, path), remove)|)
  {
    KeptIs(ReadRecords(files, path), remove);
  }

  ghost predicate Matches(recs: seq<Record>, ids: set<string>) {
    exists r :: r in recs && r.event.id in ids
  }

  /** A rewrite of these records goes through; the new file is only reopened if there is one. */
  ghost predicate Passes(recs: seq<Record>, remove: set<string>, io: RewriteIo) {
    io.replaceOk && (io.reopenOk || !Matches(recs, remove))
  }

  // ---- Put and Remove, provider by provider -----------------------------------------------

  /** The next dead-letter of the id is a poisoned one. */
  predicate PutPoisons(s: Store, p: string, id: string, permanent: bool) {
    Poisons(Attempts(s, p, id) + 1, permanent)
  }

  /** A put gets its line on file: nothing before the write fails, nor the write. */
  ghost predicate PutWrites(s: Store, p: string, id: string, permanent: bool, io: PutIo) {
    (PutPoisons(s, p, id, permanent) ==> Passes(List(s, p), {id}, io.purge)) && io.writeOk
  }

  /** Before a put, an earlier record of the id that the put will leave on file. */
  ghost predicate PutSparesRecord(s: Store, p: string, id: string, permanent: bool, io: PutIo) {
    || HasId(ListPoison(s, p), id)
    || (HasId(List(s, p), id) && !(PutPoisons(s, p, id, permanent) && io.purge.replaceOk))
  }

  function NewRecord(s: Store, p: string, e: Event, reason: string, permanent: bool): Record {
    var n := Attempts(s, p, e.id) + 1;
    Record(p, e, reason, n, Poisons(n, permanent))
  }

  lemma CountedIs(s: Store, p: string, id: string)
    ensures forall x, i :: Attempts(Counted(s, p, id), x, i) == Attempts(s, x, i) + (if x == p && i == id then 1 else 0)
  {
  }

  lemma FileRecordTouches(s: Store, p: string, path: string, rec: Record, io: PutIo)
    ensures FileRecord(s, p, path, rec, io).store.attempts == s.attempts
    ensures forall q :: q != p ==> Depth(FileRecord(s, p, path, rec, io).store, q) == Depth(s, q)
  {
  }

  lemma PutTouches(s: Store, p: string, e: Event, reason: string, permanent: bool, io: PutIo)
    ensures Put(s, p, e, reason, permanent, io).store.attempts == Counted(s, p, e.id).attempts
    ensures forall q :: q != p ==> Depth(Put(s, p, e, reason, permanent, io).store, q) == Depth(s, q)
  {
    var c := Counted(s, p, e.id);
    var rec := Record(p, e, reason, Attempts(c, p, e.id), Poisons(Attempts(c, p, e.id), permanent));
    FileRecordTouches(c, p, RegularPath(p), rec, io);
    var r := RewriteFile(c.files, RegularPath(p), {e.id}, io.purge);
    FileRecordTouches(c.(files := r.files, depth := c.depth[p := Depth(c, p) - r.removed]), p, PoisonPath(p), rec, io);
    hide RewriteFile, FileRecord, RegularPath, PoisonPath, Poisons, Attempts;
  }

  /** Whatever fails, a put counts one attempt of its id, and touches nobody else's counters. */
  lemma PutCounts(s: Store, p: string, e: Event, reason: string, permanent: bool, io: PutIo)
    ensures forall x, id :: Attempts(Put(s, p, e, reason, permanent, io).store, x, id) ==
                            Attempts(s, x, id) + (if x == p && id == e.id then 1 else 0)
    ensures forall q :: q != p ==> Depth(Put(s, p, e, reason, permanent, io).store, q) == Depth(s, q)
  {
    PutTouches(s, p, e, reason, permanent, io);
    CountedIs(s, p, e.id);
    hide Put, Counted;
  }

  lemma FileRecordIs(s: Store, p: string, path: string, rec: Record, io: PutIo, other: string)
    ensures var r := FileRecord(s, p, path, rec, io);
            && ReadRecords(r.store.files, other) ==
                 (if other == path && io.writeOk then ReadRecords(s.files, path) + [rec] else ReadRecords(s.files, other))
            && (r.ok <==> io.writeOk && io.syncOk)
  {
  }

  /** The files behind a put, by path. */
  lemma PutPaths(s: Store, p: string, e: Event, reason: string, permanent: bool, io: PutIo, other: string)
    ensures var t := Put(s, p, e, reason, permanent, io);
            var rec := NewRecord(s, p, e, reason, permanent);
            var poisons := PutPoisons(s, p, e.id, permanent);
            var writes := PutWrites(s, p, e.id, permanent, io);
            && ReadRecords(t.store.files, other) ==
                 (if other == RegularPath(p) && poisons && io.purge.replaceOk then Kept(List(s, p), {e.id})
                  else if other == RegularPath(p) && !poisons && writes then List(s, p) + [rec]
                  else if other == PoisonPath(p) && poisons && writes then ListPoison(s, p) + [rec]
                  else ReadRecords(s.files, other))
            && (t.ok <==> writes && io.syncOk)
  {
    PathsCollide(p, p);
    var c := Counted(s, p, e.id);
    var rec := NewRecord(s, p, e, reason, permanent);
    assert c.files == s.files && Attempts(c, p, e.id) == rec.attempts;
    hide RegularPath, PoisonPath, EndsWith, Passes, Poisons, RewriteFile, FileRecord, ReadRecords, Counted, Attempts;
    if PutPoisons(s, p, e.id, permanent) {
      var r := RewriteFile(c.files, RegularPath(p), {e.id}, io.purge);
      var d := c.(files := r.files, depth := c.depth[p := Depth(c, p) - r.removed]);
      RewriteFileIs(s.files, RegularPath(p), {e.id}, io.purge, other);
      RewriteFileIs(s.files, RegularPath(p), {e.id}, io.purge, PoisonPath(p));
      FileRecordIs(d, p, PoisonPath(p), rec, io, other);
    } else {
      FileRecordIs(c, p, RegularPath(p), rec, io, other);
    }
  }

  /** What Put does to the two files of the same or of another provider, and when it reports success. */
  lemma PutFiles(s: Store, p: string, e: Event, reason: string, permanent: bool, io: PutIo, q: string)
    requires NoClash(p, q)
    ensures var t := Put(s, p, e, reason, permanent, io).store;
            var rec := NewRecord(s, p, e, reason, permanent);
            var poisons := PutPoisons(s, p, e.id, permanent);
            var writes := PutWrites(s, p, e.id, permanent, io);
            if q != p then List(t, q) == List(s, q) && ListPoison(t, q) == ListPoison(s, q)
            else
              && List(t, p) == (if poisons && io.purge.replaceOk then Kept(List(s, p), {e.id})
                                else if !poisons && writes then List(s, p) + [rec] else List(s, p))
              && ListPoison(t, p) == (if poisons && writes then ListPoison(s, p) + [rec] else ListPoison(s, p))
    ensures Put(s, p, e, reason, permanent, io).ok <==> PutWrites(s, p, e.id, permanent, io) && io.syncOk
  {
    PathsCollide(p, q);
    PathsCollide(q, p);
    PathsCollide(p, p);
    PutPaths(s, p, e, reason, permanent, io, RegularPath(q));
    PutPaths(s, p, e, reason, permanent, io, PoisonPath(q));
    hide RegularPath, PoisonPath, EndsWith, Put, NewRecord, PutPoisons, PutWrites, ReadRecords;
  }

  /** The removal gets past the regular file. */
  ghost predicate RegularPasses(s: Store, p: string, ids: seq<string>, io: RemoveIo) {
    Passes(List(s, p), IdSet(ids), io.regular)
  }

  /** What Remove does to the two files of the same or of another provider, and when it succeeds. */
  lemma RemoveFiles(s: Store, p: string, ids: seq<string>, io: RemoveIo, q: string)
    requires NoClash(p, q)
    ensures var t := Remove(s, p, ids, io).store;
            if q != p || ids == [] then List(t, q) == List(s, q) && ListPoison(t, q) == ListPoison(s, q)
            else
              && List(t, p) == (if io.regular.replaceOk then Kept(List(s, p), IdSet(ids)) else List(s, p))
              && ListPoison(t, p) == (if RegularPasses(s, p, ids, io) && io.poison.replaceOk
                                      then Kept(ListPoison(s, p), IdSet(ids)) else ListPoison(s, p))
    ensures Remove(s, p, ids, io).store.attempts == s.attempts
    ensures q != p ==> Depth(Remove(s, p, ids, io).store, q) == Depth(s, q)
    ensures Remove(s, p, ids, io).ok <==>
              ids == [] || (RegularPasses(s, p, ids, io) && Passes(ListPoison(s, p), IdSet(ids), io.poison))
  {
    PathsCollide(p, q);
    PathsCollide(q, p);
    PathsCollide(p, p);
    var gone := IdSet(ids);
    var first := RewriteFile(s.files, RegularPath(p), gone, io.regular).files;
    RewriteFileIs(s.files, RegularPath(p), gone, io.regular, RegularPath(q));
    RewriteFileIs(s.files, RegularPath(p), gone, io.regular, PoisonPath(q));
    RewriteFileIs(s.files, RegularPath(p), gone, io.regular, PoisonPath(p));
    RewriteFileIs(first, PoisonPath(p), gone, io.poison, RegularPath(q));
    RewriteFileIs(first, PoisonPath(p), gone, io.poison, PoisonPath(q));
    hide RegularPath, PoisonPath, EndsWith, Passes, RewriteFile;
  }

  lemma PutHomes(s: Store, p: string, e: Event, reason: string, permanent: bool, io: PutIo, q: string)
    requires NoClash(p, q) && Homes(s, q)
    ensures Homes(Put(s, p, e, reason, permanent, io).store, q)
  {
    PutFiles(s, p, e, reason, permanent, io, q);
    PutCounts(s, p, e, reason, permanent, io);
    KeptIs(List(s, p), {e.id});
    var rec := NewRecord(s, p, e, reason, permanent);
    assert rec.event.id == e.id && rec.attempts == Attempts(s, p, e.id) + 1;
    var t := Put(s, p, e, reason, permanent, io).store;
    assert PutPoisons(s, p, e.id, permanent) ==> rec.attempts >= 2;
    assert !PutPoisons(s, p, e.id, permanent) ==> rec.attempts <= 2;
    hide Put, List, ListPoison, Kept, Passes, Attempts, PutPoisons, Homes, NewRecord;
    if ListPoison(t, q) == ListPoison(s, q) && (forall r :: r in List(t, q) ==> r in List(s, q)) {
      HomesStay(s, t, q);
    } else if ListPoison(t, q) == ListPoison(s, q) {
      RegularHomes(s, t, q, rec);
    } else {
      PoisonHomes(s, t, q, rec);
    }
  }

  // ---- When an event is poisoned ----------------------------------------------------------

  /** The put of an event whose I/O succeeds, by the number it is of its id: the second of a permanent
      kind, the third of any other and all later ones go to the poison file and take the earlier records
      of the id out of the regular one. Any other goes to the regular file. */
  lemma PutLands(s: Store, p: string, e: Event, reason: string, permanent: bool)
    ensures var t := Put(s, p, e, reason, permanent, PUT_OK).store;
            var n := Attempts(s, p, e.id) + 1;
            var poisoned := n >= if permanent then 2 else 3;
            var rec := Record(p, e, reason, n, poisoned);
            && List(t, p) == (if poisoned then Kept(List(s, p), {e.id}) else List(s, p) + [rec])
            && ListPoison(t, p) == (if poisoned then ListPoison(s, p) + [rec] else ListPoison(s, p))
            && Attempts(t, p, e.id) == n
  {
    PutFiles(s, p, e, reason, permanent, PUT_OK, p);
    PutCounts(s, p, e, reason, permanent, PUT_OK);
    hide Put, Kept, List, ListPoison, Attempts;
  }

  function PutTimes(s: Store, p: string, e: Event, reason: string, permanent: bool, k: nat): Store {
    if k == 0 then s else Put(PutTimes(s, p, e, reason, permanent, k - 1), p, e, reason, permanent, PUT_OK).store
  }

  /** Where k dead-letters have left an event that was new to s. */
  ghost predicate PutSoFar(s: Store, t: Store, p: string, id: string, permanent: bool, k: nat) {
    var threshold := if permanent then 2 else 3;
    && Attempts(t, p, id) == k
    && (HasId(List(t, p), id) <==> 0 < k < threshold)
    && (HasId(ListPoison(t, p), id) <==> k >= threshold)
    && |ListPoison(t, p)| == |ListPoison(s, p)| + (if k >= threshold then k - threshold + 1 else 0)
  }

  lemma PutOnceMore(s: Store, t: Store, p: string, e: Event, reason: string, permanent: bool, k: nat)
    requires PutSoFar(s, t, p, e.id, permanent, k)
    ensures PutSoFar(s, Put(t, p, e, reason, permanent, PUT_OK).store, p, e.id, permanent, k + 1)
  {
    PutLands(t, p, e, reason, permanent);
    var rec := Record(p, e, reason, k + 1, k + 1 >= if permanent then 2 else 3);
    hide Put, Kept, List, ListPoison, Attempts, HasId;
    HasAppended(List(t, p), rec);
    HasAppended(ListPoison(t, p), rec);
    HasPurged(List(t, p), e.id);
  }

  /** An event new to the queue that keeps being dead-lettered: it is in the regular file after the first
      permanent failure, or the first two others, and in the poison file alone, once for each time, from
      then on. */
  lemma {:induction false} PoisonedExactlyWhen(s: Store, p: string, e: Event, reason: string, permanent: bool, k: nat)
    requires Attempts(s, p, e.id) == 0 && !Parked(s, p, e.id)
    ensures PutSoFar(s, PutTimes(s, p, e, reason, permanent, k), p, e.id, permanent, k)
  {
    if k > 0 {
      PoisonedExactlyWhen(s, p, e, reason, permanent, k - 1);
      hide PutSoFar, Put;
      PutOnceMore(s, PutTimes(s, p, e, reason, permanent, k - 1), p, e, reason, permanent, k - 1);
    }
  }

  lemma HasAppended(recs: seq<Record>, rec: Record)
    ensures HasId(recs + [rec], rec.event.id)
  {
    InEither(recs, [rec]);
  }

  lemma HasPurged(recs: seq<Record>, id: string)
    ensures !HasId(Kept(recs, {id}), id)
  {
    KeptIs(recs, {id});
  }

  lemma HomesStay(s: Store, t: Store, q: string)
    requires Homes(s, q) && forall id :: Attempts(t, q, id) >= Attempts(s, q, id)
    requires forall r :: r in List(t, q) ==> r in List(s, q)
    requires forall r :: r in ListPoison(t, q) ==> r in ListPoison(s, q)
    ensures Homes(t, q)
  {
    hide List, ListPoison, Attempts;
  }

  lemma RegularHomes(s: Store, t: Store, q: string, rec: Record)
    requires Homes(s, q) && forall id :: Attempts(t, q, id) >= Attempts(s, q, id)
    requires rec.attempts == Attempts(s, q, rec.event.id) + 1 <= 2
    requires List(t, q) == List(s, q) + [rec] && ListPoison(t, q) == ListPoison(s, q)
    ensures Homes(t, q)
  {
    InEither(List(s, q), [rec]);
    hide List, ListPoison, Attempts;
  }

  lemma PoisonHomes(s: Store, t: Store, q: string, rec: Record)
    requires Homes(s, q) && forall id :: Attempts(t, q, id) >= Attempts(s, q, id)
    requires 2 <= rec.attempts <= Attempts(t, q, rec.event.id)
    requires forall r :: r in List(t, q) ==> r in List(s, q) && r.event.id != rec.event.id
    requires ListPoison(t, q) == ListPoison(s, q) + [rec]
    ensures Homes(t, q)
  {
    InEither(ListPoison(s, q), [rec]);
    hide List, ListPoison, Attempts;
  }

  lemma RemoveHomes(s: Store, p: string, ids: seq<string>, io: RemoveIo, q: string)
    requires NoClash(p, q) && Homes(s, q)
    ensures Homes(Remove(s, p, ids, io).store, q)
  {
    RemoveFiles(s, p, ids, io, q);
    KeptIs(List(s, p), IdSet(ids));
    KeptIs(ListPoison(s, p), IdSet(ids));
    assert forall id :: Attempts(Remove(s, p, ids, io).store, q, id) == Attempts(s, q, id);
    hide Remove, List, ListPoison, Kept, Homes, RegularPasses, Passes;
    HomesStay(s, Remove(s, p, ids, io).store, q);
  }

  /** Once poisoned, always poison: a further dead-letter of an id with a poison record goes to the
      poison file whatever its kind. */
  lemma PoisonStaysPoison(s: Store, p: string, e: Event, reason: string, permanent: bool)
    requires Homes(s, p) && HasId(ListPoison(s, p), e.id)
    ensures var t := Put(s, p, e, reason, permanent, PUT_OK).store;
            HasId(ListPoison(t, p), e.id) && !HasId(List(t, p), e.id) && |ListPoison(t, p)| == |ListPoison(s, p)| + 1
  {
    PutFiles(s, p, e, reason, permanent, PUT_OK, p);
    KeptIs(List(s, p), {e.id});
    var t := Put(s, p, e, reason, permanent, PUT_OK).store;
    assert ListPoison(t, p)[|ListPoison(s, p)|].event.id == e.id;
  }

  /** Put leaves the depth exact except in two cases: the line was written and its sync failed, or the
      purge replaced the regular file, which had records of the id, and could not reopen it. */
  lemma PutDepth(s: Store, p: string, e: Event, reason: string, permanent: bool, io: PutIo, q: string)
    requires NoClash(p, q) && DepthExact(s, q)
    ensures DepthExact(Put(s, p, e, reason, permanent, io).store, q) <==>
            !(q == p && PutWrites(s, p, e.id, permanent, io) && !io.syncOk) &&
            !(q == p && PutPoisons(s, p, e.id, permanent) && io.purge.replaceOk && !io.purge.reopenOk
              && HasId(List(s, p), e.id))
  {
    PutFiles(s, p, e, reason, permanent, io, q);
    PutCounts(s, p, e, reason, permanent, io);
    if q == p {
      KeptIs(List(s, p), {e.id});
      PurgeMatches(List(s, p), e.id);
      assert Matches(List(s, p), {e.id}) <==> |Kept(List(s, p), {e.id})| < |List(s, p)|;
      PutDepthIs(s, p, e, reason, permanent, io);
      hide Put, List, ListPoison, Kept, Depth, Poisons, NewRecord;
    }
  }

  /** What Put makes of the depth. */
  lemma PutDepthIs(s: Store, p: string, e: Event, reason: string, permanent: bool, io: PutIo)
    ensures Depth(Put(s, p, e, reason, permanent, io).store, p) ==
            Depth(s, p)
            - (if PutPoisons(s, p, e.id, permanent) && Passes(List(s, p), {e.id}, io.purge)
               then |List(s, p)| - |Kept(List(s, p), {e.id})| else 0)
            + (if PutWrites(s, p, e.id, permanent, io) && io.syncOk then 1 else 0)
  {
    RewriteFileIs(s.files, RegularPath(p), {e.id}, io.purge, RegularPath(p));
    hide RewriteFile, AppendRecord, Kept, Passes, Poisons, RegularPath, PoisonPath, ReadRecords;
  }

  lemma PurgeMatches(recs: seq<Record>, id: string)
    ensures Matches(recs, {id}) <==> HasId(recs, id)
  {
    if r :| r in recs && r.event.id in {id} {
      assert r.event.id == id;
    }
    if r :| r in recs && r.event.id == id {
      assert r.event.id in {id};
    }
  }

  /** Remove leaves the depth exact, and its clamp at zero idle, except when it replaced a file that had
      records to remove and something failed after that. */
  lemma RemoveDepth(s: Store, p: string, ids: seq<string>, io: RemoveIo)
    requires DepthExact(s, p)
    ensures var gone := IdSet(ids);
            DepthExact(Remove(s, p, ids, io).store, p) <==>
            !(ids != [] && io.regular.replaceOk && Matches(List(s, p), gone)
              && (!io.regular.reopenOk || !io.poison.replaceOk)) &&
            !(ids != [] && RegularPasses(s, p, ids, io) && io.poison.replaceOk && Matches(ListPoison(s, p), gone)
              && !io.poison.reopenOk)
    ensures Depth(s, p) >= |List(s, p)| - |Kept(List(s, p), IdSet(ids))| + |ListPoison(s, p)| - |Kept(ListPoison(s, p), IdSet(ids))|
  {
    PathsCollide(p, p);
    RemoveFiles(s, p, ids, io, p);
    var first := RewriteFile(s.files, RegularPath(p), IdSet(ids), io.regular).files;
    RewriteFileIs(s.files, RegularPath(p), IdSet(ids), io.regular, RegularPath(p));
    RewriteFileIs(s.files, RegularPath(p), IdSet(ids), io.regular, PoisonPath(p));
    RewriteFileIs(first, PoisonPath(p), IdSet(ids), io.poison, PoisonPath(p));
    KeptIs(List(s, p), IdSet(ids));
    KeptIs(ListPoison(s, p), IdSet(ids));
    hide RewriteFile, RegularPath, PoisonPath, Kept;
  }

  /** What Remove makes of the depth, right or wrong as it was: it takes off the records deleted, but never
      goes below zero; a removal that fails leaves it. */
  lemma RemoveDepthIs(s: Store, p: string, ids: seq<string>, io: RemoveIo)
    ensures var left := Depth(s, p) - (|List(s, p)| - |Kept(List(s, p), IdSet(ids))|)
                        - (|ListPoison(s, p)| - |Kept(ListPoison(s, p), IdSet(ids))|);
            Depth(Remove(s, p, ids, io).store, p) ==
            if ids == [] || !Remove(s, p, ids, io).ok then Depth(s, p) else if left > 0 then left else 0
  {
    PathsCollide(p, p);
    var first := RewriteFile(s.files, RegularPath(p), IdSet(ids), io.regular).files;
    RewriteFileIs(s.files, RegularPath(p), IdSet(ids), io.regular, PoisonPath(p));
    RewriteFileIs(first, PoisonPath(p), IdSet(ids), io.poison, PoisonPath(p));
    hide RewriteFile, RegularPath, PoisonPath, Kept;
  }

  lemma RecordedSame(a: seq<Record>, b: seq<Record>, id: string, n: nat)
    requires forall r: Record :: r.event.id == id ==> (r in a <==> r in b)
    ensures Recorded(a, id, n) <==> Recorded(b, id, n)
  {
  }

  /** Which records a Put leaves on file: those of other ids, and the new one if it was written. */
  lemma PutRecords(s: Store, p: string, e: Event, reason: string, permanent: bool, io: PutIo)
    ensures var t := Put(s, p, e, reason, permanent, io).store;
            var rec := NewRecord(s, p, e, reason, permanent);
            var writes := PutWrites(s, p, e.id, permanent, io);
            && (writes ==> rec in OnFile(t, p))
            && (forall r :: r in OnFile(t, p) ==> r in OnFile(s, p) || (writes && r == rec))
            && (forall r :: r in OnFile(s, p) && r.event.id != e.id ==> r in OnFile(t, p))
            && (!writes ==> (HasId(OnFile(t, p), e.id) <==> PutSparesRecord(s, p, e.id, permanent, io)))
  {
    var t := Put(s, p, e, reason, permanent, io).store;
    PutFiles(s, p, e, reason, permanent, io, p);
    KeptIs(List(s, p), {e.id});
    var rec := NewRecord(s, p, e, reason, permanent);
    InEither(List(s, p), [rec]);
    InEither(ListPoison(s, p), [rec]);
    InEither(List(s, p), ListPoison(s, p));
    InEither(List(t, p), ListPoison(t, p));
    HasEither(List(t, p), ListPoison(t, p), e.id);
    hide Put, List, ListPoison, Kept, Attempts, Poisons, NewRecord, PutWrites;
  }

  lemma HasEither(a: seq<Record>, b: seq<Record>, id: string)
    ensures HasId(a + b, id) <==> HasId(a, id) || HasId(b, id)
  {
    InEither(a, b);
  }

  lemma InEither(a: seq<Record>, b: seq<Record>)
    ensures forall r :: r in a + b <==> r in a || r in b
  {
  }

  /** The counter stays exact under Put exactly when the line is written or no earlier record of the id
      stays on file; what the failed put has counted is otherwise ahead of every record. */
  lemma PutAttempts(s: Store, p: string, e: Event, reason: string, permanent: bool, io: PutIo)
    requires AttemptsExact(s, p)
    ensures AttemptsExact(Put(s, p, e, reason, permanent, io).store, p) <==>
            PutWrites(s, p, e.id, permanent, io) || !PutSparesRecord(s, p, e.id, permanent, io)
  {
    var t := Put(s, p, e, reason, permanent, io).store;
    var was, now := OnFile(s, p), OnFile(t, p);
    var rec := NewRecord(s, p, e, reason, permanent);
    PutCounts(s, p, e, reason, permanent, io);
    PutRecords(s, p, e, reason, permanent, io);
    assert forall r :: r in was ==> r.attempts <= Attempts(s, p, r.event.id);
    assert rec.event.id == e.id && rec.attempts == Attempts(s, p, e.id) + 1;
    assert Attempts(t, p, e.id) == Attempts(s, p, e.id) + 1;
    assert forall id :: id != e.id ==> Attempts(t, p, id) == Attempts(s, p, id);
    hide Put, List, ListPoison, Kept, Attempts, Poisons, Homes, PutWrites, PutSparesRecord, NewRecord, OnFile;
    forall r | r in now && r.event.id != e.id ensures Recorded(now, r.event.id, Attempts(t, p, r.event.id)) {
      assert r in was;
      RecordedSame(was, now, r.event.id, Attempts(s, p, r.event.id));
    }
    if PutWrites(s, p, e.id, permanent, io) {
      assert Recorded(now, e.id, Attempts(t, p, e.id));
    } else if HasId(now, e.id) {
      var r :| r in now && r.event.id == e.id;
      assert !Recorded(now, r.event.id, Attempts(t, p, r.event.id));
    }
  }

  lemma PutAttemptsElsewhere(s: Store, p: string, e: Event, reason: string, permanent: bool, io: PutIo, q: string)
    requires NoClash(p, q) && q != p && AttemptsExact(s, q)
    ensures AttemptsExact(Put(s, p, e, reason, permanent, io).store, q)
  {
    PutFiles(s, p, e, reason, permanent, io, q);
    PutCounts(s, p, e, reason, permanent, io);
  }

  /** Which records a Remove leaves on file: of each id all, or none. */
  lemma RemoveRecords(s: Store, p: string, ids: seq<string>, io: RemoveIo, q: string)
    requires NoClash(p, q) && Homes(s, q)
    ensures var now := OnFile(Remove(s, p, ids, io).store, q);
            Whole(now, OnFile(s, q))
  {
    RemoveFiles(s, p, ids, io, q);
    KeptWhole(List(s, q), IdSet(ids));
    KeptWhole(ListPoison(s, q), IdSet(ids));
    var t := Remove(s, p, ids, io).store;
    hide Remove, List, ListPoison, Kept, Whole;
    WholeBoth(List(t, q), List(s, q), ListPoison(t, q), ListPoison(s, q));
  }

  /** The records that are left of these, of each id all or none. */
  ghost predicate Whole(now: seq<Record>, was: seq<Record>) {
    && (forall r :: r in now ==> r in was)
    && (forall r, m :: r in now && m in was && m.event.id == r.event.id ==> m in now)
  }

  lemma KeptWhole(recs: seq<Record>, remove: set<string>)
    ensures Whole(Kept(recs, remove), recs) && Whole(recs, recs)
  {
    KeptIs(recs, remove);
  }

  lemma WholeBoth(a: seq<Record>, aWas: seq<Record>, b: seq<Record>, bWas: seq<Record>)
    requires Whole(a, aWas) && Whole(b, bWas)
    requires forall r, m :: r in aWas && m in bWas ==> r.event.id != m.event.id
    ensures Whole(a + b, aWas + bWas)
  {
    InEither(a, b);
    InEither(aWas, bWas);
  }

  /** Remove deletes all records of an id or none, so counters stay exact whatever fails. */
  lemma RemoveAttempts(s: Store, p: string, ids: seq<string>, io: RemoveIo, q: string)
    requires NoClash(p, q) && Homes(s, q) && AttemptsExact(s, q)
    ensures AttemptsExact(Remove(s, p, ids, io).store, q)
  {
    RemoveFiles(s, p, ids, io, q);
    RemoveRecords(s, p, ids, io, q);
    var t := Remove(s, p, ids, io).store;
    var was, now := OnFile(s, q), OnFile(t, q);
    assert forall id :: Attempts(t, q, id) == Attempts(s, q, id);
    hide Remove, List, ListPoison, Kept, Attempts, Homes;
    forall r | r in now ensures Recorded(now, r.event.id, Attempts(t, q, r.event.id)) {
      RecordedSame(was, now, r.event.id, Attempts(s, q, r.event.id));
    }
  }

  // ---- Open -------------------------------------------------------------------------------

  ghost predicate ScanAdds(s: Store, t: Store, provider: string, recs: seq<Record>, q: string) {
    && t.files == s.files
    && Depth(t, q) == Depth(s, q) + (if q == provider then |recs| else 0)
    && forall id :: Attempts(t, q, id) == (if q == provider then Highest(recs, id, Attempts(s, q, id)) else Attempts(s, q, id))
  }

  /** The larger of `base` and the largest attempt number recorded for id. */
  function Highest(recs: seq<Record>, id: string, base: nat): nat {
    if recs == [] then base
    else
      var n := |recs| - 1;
      var h := Highest(recs[..n], id, base);
      if recs[n].event.id == id && recs[n].attempts > h then recs[n].attempts else h
  }

  lemma {:induction false} HighestIs(recs: seq<Record>, id: string, base: nat)
    ensures Highest(recs, id, base) >= base
    ensures forall r :: r in recs && r.event.id == id ==> r.attempts <= Highest(recs, id, base)
    ensures Highest(recs, id, base) == base ||
            exists r :: r in recs && r.event.id == id && r.attempts == Highest(recs, id, base)
  {
    if recs == [] {
    } else {
      var n := |recs| - 1;
      HighestIs(recs[..n], id, base);
      SplitLast(recs);
      assert recs[n] in recs && forall r :: r in recs[..n] ==> r in recs;
    }
  }

  lemma {:induction false} ScanRecordsIs(s: Store, provider: string, recs: seq<Record>, q: string)
    ensures ScanAdds(s, ScanRecords(s, provider, recs), provider, recs, q)
  {
    if recs == [] {
    } else {
      ScanRecordsIs(s, provider, recs[..|recs| - 1], q);
    }
  }

  lemma {:induction false} HighestConcat(a: seq<Record>, b: seq<Record>, id: string, base: nat)
    ensures Highest(a + b, id, base) == Highest(b, id, Highest(a, id, base))
  {
    if b == [] {
      assert a + b == a;
    } else {
      var n := |b| - 1;
      assert (a + b)[..|a + b| - 1] == a + b[..n];
      HighestConcat(a, b[..n], id, base);
    }
  }

  /** The records of every listed file attributed to q, in the order they are read. */
  function Attributed(files: map<string, seq<Record>>, names: seq<string>, q: string): seq<Record> {
    if names == [] then []
    else
      var n := |names| - 1;
      Attributed(files, names[..n], q) +
      (if EndsWith(names[n], JSONL) && ProviderOf(names[n]) == q then ReadRecords(files, names[n]) else [])
  }

  /** Open counts, for each provider, exactly the records of the files attributed to it. */
  lemma {:induction false} OpenIs(files: map<string, seq<Record>>, names: seq<string>, q: string)
    ensures Open(files, names).files == files
    ensures Depth(Open(files, names), q) == |Attributed(files, names, q)|
    ensures forall id :: Attempts(Open(files, names), q, id) == Highest(Attributed(files, names, q), id, 0)
  {
    if names == [] {
    } else {
      var n := |names| - 1;
      OpenIs(files, names[..n], q);
      var t := Open(files, names[..n]);
      var before := Attributed(files, names[..n], q);
      if EndsWith(names[n], JSONL) {
        var recs := ReadRecords(files, names[n]);
        ScanRecordsIs(t, ProviderOf(names[n]), recs, q);
        if ProviderOf(names[n]) == q {
          forall id ensures Highest(before + recs, id, 0) == Highest(recs, id, Highest(before, id, 0)) {
            HighestConcat(before, recs, id, 0);
          }
        } else {
          assert before + [] == before;
        }
      } else {
        assert before + [] == before;
      }
    }
  }

  /** A directory listing: each file once. */
  ghost predicate Listing(files: map<string, seq<Record>>, names: seq<string>) {
    && (forall i, j :: 0 <= i < j < |names| ==> names[i] != names[j])
    && (forall name :: name in files <==> name in names)
  }

  function Part(files: map<string, seq<Record>>, names: seq<string>, name: string): seq<Record> {
    if name in names then ReadRecords(files, name) else []
  }

  lemma Untrimmed(s: string, suffix: string)
    requires EndsWith(s, suffix)
    ensures s == TrimSuffix(s, suffix) + suffix
  {
  }

  /** The files attributed to q are its poison file and, if its name is plain, its regular one. */
  lemma OwnFiles(name: string, q: string)
    ensures EndsWith(name, JSONL) && ProviderOf(name) == q <==>
            name == PoisonPath(q) || (PlainName(q) && name == RegularPath(q))
  {
    PathsAttributed(q);
    if EndsWith(name, JSONL) && ProviderOf(name) == q {
      Untrimmed(name, JSONL);
      var stem := TrimSuffix(name, JSONL);
      if EndsWith(stem, POISON) {
        Untrimmed(stem, POISON);
      }
    }
  }

  lemma PartSnoc(files: map<string, seq<Record>>, names: seq<string>, last: string, name: string)
    requires last !in names
    ensures Part(files, names + [last], name) ==
            if name == last then ReadRecords(files, name) else Part(files, names, name)
    ensures name == last ==> Part(files, names, name) == []
  {
    assert name in names + [last] <==> name in names || name == last;
  }

  ghost predicate InSomeOrder<T>(all: seq<T>, a: seq<T>, b: seq<T>) {
    all == a + b || all == b + a
  }

  lemma OrderSnoc<T>(all: seq<T>, a: seq<T>, b: seq<T>, more: seq<T>)
    requires InSomeOrder(all, a, b)
    ensures a == [] ==> InSomeOrder(all + more, more, b)
    ensures b == [] ==> InSomeOrder(all + more, a, more)
    ensures all + [] == all
  {
    if a == [] { assert all == b; }
    if b == [] { assert all == a; }
  }

  /** The regular file of q as far as it is listed and attributed to q. */
  function RegularPart(files: map<string, seq<Record>>, names: seq<string>, q: string): seq<Record> {
    if PlainName(q) then Part(files, names, RegularPath(q)) else []
  }

  /** The records attributed to q are those of its own files, in one order or the other. */
  lemma {:induction false} AttributedIs(files: map<string, seq<Record>>, names: seq<string>, q: string)
    requires forall i, j :: 0 <= i < j < |names| ==> names[i] != names[j]
    ensures InSomeOrder(Attributed(files, names, q), RegularPart(files, names, q), Part(files, names, PoisonPath(q)))
  {
    if names == [] {
    } else {
      var n := |names| - 1;
      var front, last := names[..n], names[n];
      SplitLast(names);
      assert last in names && forall name :: name in front ==> name in names;
      AttributedIs(files, front, q);
      assert last !in front;
      OwnFiles(last, q);
      hide PlainName, Part;
      PathsCollide(q, q);
      PartSnoc(files, front, last, RegularPath(q));
      PartSnoc(files, front, last, PoisonPath(q));
      OrderSnoc(Attributed(files, front, q), RegularPart(files, front, q), Part(files, front, PoisonPath(q)),
                ReadRecords(files, last));
    }
  }

  /** What a restart reads back of a provider: all of its records, or only the poisoned ones. */
  function ReadBack(s: Store, q: string): seq<Record> {
    if PlainName(q) then OnFile(s, q) else ListPoison(s, q)
  }

  /** Each counter becomes the largest attempt number read back, zero for an id with none. */
  lemma ReopenIs(s: Store, names: seq<string>, q: string)
    requires Listing(s.files, names)
    ensures var t := Open(s.files, names);
            && List(t, q) == List(s, q) && ListPoison(t, q) == ListPoison(s, q)
            && Depth(t, q) == |ReadBack(s, q)|
            && forall id :: Largest(ReadBack(s, q), id, Attempts(t, q, id))
  {
    var t := Open(s.files, names);
    OpenIs(s.files, names, q);
    AttributedIs(s.files, names, q);
    var recs := Attributed(s.files, names, q);
    assert Part(s.files, names, RegularPath(q)) == List(s, q) && Part(s.files, names, PoisonPath(q)) == ListPoison(s, q);
    assert forall r :: r in recs <==> r in ReadBack(s, q);
    forall id ensures Largest(ReadBack(s, q), id, Attempts(t, q, id)) {
      HighestIs(recs, id, 0);
    }
  }

  /** n is the largest attempt number recorded for the id, or 0 if there is none. */
  ghost predicate Largest(recs: seq<Record>, id: string, n: nat) {
    && (forall r :: r in recs && r.event.id == id ==> r.attempts <= n)
    && (n == 0 || exists r :: r in recs && r.event.id == id && r.attempts == n)
  }

  /** Exactly when a restart rebuilds a provider's depth and counters from its files: its name does not
      end in .poison, or there is nothing in its regular file. That file is otherwise taken for the
      poison file of somebody else. */
  lemma ReopenRebuildsExactly(s: Store, names: seq<string>, q: string)
    requires Listing(s.files, names) && Homes(s, q)
    ensures var t := Open(s.files, names);
            && Homes(t, q)
            && (DepthExact(t, q) <==> PlainName(q) || List(s, q) == [])
            && (AttemptsExact(t, q) <==> PlainName(q) || List(s, q) == [])
  {
    var t := Open(s.files, names);
    ReopenIs(s, names, q);
    InEither(List(s, q), ListPoison(s, q));
    var recs, all := ReadBack(s, q), OnFile(s, q);
    assert OnFile(t, q) == all;
    assert forall r :: r in all ==> r.attempts >= 1;
    if PlainName(q) || List(s, q) == [] {
      assert recs == all;
      forall r | r in all ensures Recorded(all, r.event.id, Attempts(t, q, r.event.id)) {
        assert Largest(recs, r.event.id, Attempts(t, q, r.event.id));
      }
    } else {
      var r := List(s, q)[0];
      assert r in all && Largest(recs, r.event.id, Attempts(t, q, r.event.id));
      assert !Recorded(all, r.event.id, Attempts(t, q, r.event.id));
    }
  }

  /** If counters and depth were exact before a restart they are the same after it, except that an id
      with no record left starts again from zero. */
  lemma ReopenReconstructs(s: Store, names: seq<string>, q: string)
    requires Listing(s.files, names) && PlainName(q) && Homes(s, q) && DepthExact(s, q) && AttemptsExact(s, q)
    ensures var t := Open(s.files, names);
            && Depth(t, q) == Depth(s, q)
            && forall id :: Attempts(t, q, id) ==
                            if HasId(OnFile(s, q), id) then Attempts(s, q, id) else 0
  {
    ReopenIs(s, names, q);
    var t := Open(s.files, names);
    InEither(List(s, q), ListPoison(s, q));
    forall id ensures Attempts(t, q, id) == if HasId(OnFile(s, q), id) then Attempts(s, q, id) else 0 {
      assert Largest(OnFile(s, q), id, Attempts(t, q, id));
      if HasId(OnFile(s, q), id) {
        var r :| r in OnFile(s, q) && r.event.id == id;
        assert Recorded(OnFile(s, q), r.event.id, Attempts(s, q, id));
      }
    }
  }

  // ---- Runs -------------------------------------------------------------------------------

  datatype Step =
    | PutStep(provider: string, event: Event, reason: string, permanent: bool, putIo: PutIo)
    | RemoveStep(provider: string, ids: seq<string>, removeIo: RemoveIo)
    | RestartStep(names: seq<string>)

  ghost predicate Enabled(s: Store, st: Step, providers: set<string>) {
    match st
    case PutStep(p, _, _, _, _) => p in providers
    case RemoveStep(p, _, _) => p in providers
    case RestartStep(names) => Listing(s.files, names)
  }

  function Next(s: Store, st: Step): Store {
    match st
    case PutStep(p, e, reason, permanent, io) => Put(s, p, e, reason, permanent, io).store
    case RemoveStep(p, ids, io) => Remove(s, p, ids, io).store
    case RestartStep(names) => Open(s.files, names)
  }

  /** A run for some providers, from an empty directory. A crash inside an operation is that operation
      failing at the same point, followed by a restart. */
  ghost predicate IsRun(run: seq<Store>, steps: seq<Step>, providers: set<string>) {
    && |run| == |steps| + 1
    && run[0] == Open(map[], [])
    && forall i :: 0 <= i < |steps| ==> Enabled(run[i], steps[i], providers) && run[i + 1] == Next(run[i], steps[i])
  }

  lemma NextHomes(s: Store, st: Step, providers: set<string>)
    requires Apart(providers) && AllHomes(s, providers) && Enabled(s, st, providers)
    ensures AllHomes(Next(s, st), providers)
  {
    forall q | q in providers ensures Homes(Next(s, st), q) {
      match st
      case PutStep(p, e, reason, permanent, io) => PutHomes(s, p, e, reason, permanent, io, q);
      case RemoveStep(p, ids, io) => RemoveHomes(s, p, ids, io, q);
      case RestartStep(names) => ReopenRebuildsExactly(s, names, q);
    }
  }

  /** In every run of providers that share no file, failures included, no id is in both files of a
      provider, regular records have attempts 1 or 2, poison records at least 2, and no counter is behind
      a poison record. */
  lemma {:induction false} HomesAreDisjoint(run: seq<Store>, steps: seq<Step>, providers: set<string>, i: nat)
    requires IsRun(run, steps, providers) && Apart(providers) && i < |run|
    ensures AllHomes(run[i], providers)
  {
    hide Apart, AllHomes, Enabled, Next;
    if i == 0 {
      FreshHomes(providers);
    } else {
      HomesAreDisjoint(run, steps, providers, i - 1);
      NextHomes(run[i - 1], steps[i - 1], providers);
    }
  }

  lemma FreshHomes(providers: set<string>)
    ensures AllHomes(Open(map[], []), providers)
  {
  }

  /** A step whose I/O succeeds. */
  predicate Succeeds(s: Store, st: Step) {
    match st
    case PutStep(p, e, reason, permanent, io) => Put(s, p, e, reason, permanent, io).ok
    case RemoveStep(p, ids, io) => Remove(s, p, ids, io).ok
    case RestartStep(_) => true
  }

  lemma PutExact(s: Store, p: string, e: Event, reason: string, permanent: bool, io: PutIo, q: string)
    requires NoClash(p, q) && DepthExact(s, q) && AttemptsExact(s, q) && Put(s, p, e, reason, permanent, io).ok
    ensures var t := Put(s, p, e, reason, permanent, io).store; DepthExact(t, q) && AttemptsExact(t, q)
  {
    PutFiles(s, p, e, reason, permanent, io, p);
    PurgeMatches(List(s, p), e.id);
    hide Put, DepthExact, AttemptsExact, List, ListPoison, HasId, Matches;
    PutDepth(s, p, e, reason, permanent, io, q);
    if q == p {
      PutAttempts(s, p, e, reason, permanent, io);
    } else {
      PutAttemptsElsewhere(s, p, e, reason, permanent, io, q);
    }
  }

  lemma RemoveExact(s: Store, p: string, ids: seq<string>, io: RemoveIo, q: string)
    requires NoClash(p, q) && Homes(s, q) && DepthExact(s, q) && AttemptsExact(s, q) && Remove(s, p, ids, io).ok
    ensures var t := Remove(s, p, ids, io).store; DepthExact(t, q) && AttemptsExact(t, q)
  {
    RemoveFiles(s, p, ids, io, q);
    RemoveAttempts(s, p, ids, io, q);
    if q == p {
      hide Remove, AttemptsExact, Homes, Matches, List, ListPoison;
      RemoveDepth(s, p, ids, io);
    } else {
      hide Remove, AttemptsExact, Homes;
    }
  }

  lemma NextExact(s: Store, st: Step, providers: set<string>, q: string)
    requires Apart(providers) && q in providers && Homes(s, q) && Enabled(s, st, providers) && Succeeds(s, st)
    requires DepthExact(s, q) && AttemptsExact(s, q) && (st.RestartStep? ==> PlainName(q))
    ensures DepthExact(Next(s, st), q) && AttemptsExact(Next(s, st), q)
  {
    hide DepthExact, AttemptsExact, Homes, Put, Remove, Open;
    match st
    case PutStep(p, e, reason, permanent, io) => PutExact(s, p, e, reason, permanent, io, q);
    case RemoveStep(p, ids, io) => RemoveExact(s, p, ids, io, q);
    case RestartStep(names) => ReopenRebuildsExactly(s, names, q);
  }

  /** In every run whose operations succeed, depth and counters are exact in every state: of a provider
      with a plain name always, of any other until the first restart. By ReopenReconstructs a restart
      then changes nothing but forgotten ids. */
  lemma {:induction false} CountersAreExact(
    run: seq<Store>, steps: seq<Step>, providers: set<string>, i: nat, p: string)
    requires IsRun(run, steps, providers) && Apart(providers) && i < |run| && p in providers
    requires forall j :: 0 <= j < i ==> Succeeds(run[j], steps[j]) && (steps[j].RestartStep? ==> PlainName(p))
    ensures DepthExact(run[i], p) && AttemptsExact(run[i], p)
  {
    if i == 0 {
    } else {
      CountersAreExact(run, steps, providers, i - 1, p);
      HomesAreDisjoint(run, steps, providers, i - 1);
      hide Apart, Enabled, Next, Succeeds, DepthExact, AttemptsExact, Homes;
      NextExact(run[i - 1], steps[i - 1], providers, p);
    }
  }

  /** A dead-letter record, once put, is found in one of the provider's files until its id is
      removed: later puts of any event and restarts keep it. */
  ghost predicate Parked(s: Store, p: string, id: string) {
    HasId(List(s, p), id) || HasId(ListPoison(s, p), id)
  }

  lemma ParkedIs(s: Store, p: string, id: string)
    ensures Parked(s, p, id) <==> HasId(OnFile(s, p), id)
  {
    HasEither(List(s, p), ListPoison(s, p), id);
  }

  /** After a put its id is parked exactly when the line was written or an earlier record stayed. */
  lemma PutParksExactly(s: Store, p: string, e: Event, reason: string, permanent: bool, io: PutIo)
    ensures Parked(Put(s, p, e, reason, permanent, io).store, p, e.id) <==>
            PutWrites(s, p, e.id, permanent, io) || PutSparesRecord(s, p, e.id, permanent, io)
  {
    var t := Put(s, p, e, reason, permanent, io).store;
    PutRecords(s, p, e, reason, permanent, io);
    ParkedIs(t, p, e.id);
    var rec := NewRecord(s, p, e, reason, permanent);
    assert rec.event.id == e.id;
    hide Put, List, ListPoison, PutWrites, PutSparesRecord, NewRecord, OnFile, Parked;
  }

  /** Whatever fails, a put leaves every other parked pair parked. */
  lemma PutKeepsParked(s: Store, p: string, e: Event, reason: string, permanent: bool, io: PutIo, q: string, id: string)
    requires NoClash(p, q) && Parked(s, q, id) && !(q == p && id == e.id)
    ensures Parked(Put(s, p, e, reason, permanent, io).store, q, id)
  {
    var t := Put(s, p, e, reason, permanent, io).store;
    PutFiles(s, p, e, reason, permanent, io, q);
    PutRecords(s, p, e, reason, permanent, io);
    ParkedIs(s, q, id);
    ParkedIs(t, q, id);
    hide Put, List, ListPoison, PutWrites, PutSparesRecord;
  }

  /** A removal leaves a record of an id it names: in the regular file if that is not replaced, or in the
      poison file if the removal does not get there or it is not replaced. */
  ghost predicate RemoveSpares(s: Store, p: string, ids: seq<string>, io: RemoveIo, id: string) {
    || (HasId(List(s, p), id) && !io.regular.replaceOk)
    || (HasId(ListPoison(s, p), id) && !(RegularPasses(s, p, ids, io) && io.poison.replaceOk))
  }

  lemma RemoveParksExactly(s: Store, p: string, ids: seq<string>, io: RemoveIo, id: string)
    requires id in ids
    ensures Parked(Remove(s, p, ids, io).store, p, id) <==> RemoveSpares(s, p, ids, io, id)
    ensures Remove(s, p, ids, io).ok ==> !RemoveSpares(s, p, ids, io, id)
  {
    RemoveFiles(s, p, ids, io, p);
    KeptIs(List(s, p), IdSet(ids));
    KeptIs(ListPoison(s, p), IdSet(ids));
    hide Remove, List, ListPoison, Kept;
  }

  /** Nor does a removal take a parked pair it does not name. */
  lemma RemoveKeepsParked(s: Store, p: string, ids: seq<string>, io: RemoveIo, q: string, id: string)
    requires NoClash(p, q) && Parked(s, q, id) && !(q == p && id in ids)
    ensures Parked(Remove(s, p, ids, io).store, q, id)
  {
    RemoveFiles(s, p, ids, io, q);
    KeptIs(List(s, p), IdSet(ids));
    KeptIs(ListPoison(s, p), IdSet(ids));
    hide Remove, List, ListPoison, Kept, RegularPasses;
  }

  // ---- Names that end in .poison ----------------------------------------------------------

  /** A first, not permanent, dead-letter of an event whose provider has no files yet. */
  lemma FirstPut(s: Store, p: string, e: Event, reason: string)
    requires List(s, p) == [] && Attempts(s, p, e.id) == 0
    ensures var t := Put(s, p, e, reason, false, PUT_OK).store;
            && List(t, p) == [Record(p, e, reason, 1, false)] && t.files.Keys == s.files.Keys + {RegularPath(p)}
            && forall q :: q != p ==> List(t, q) == List(s, q) && forall id :: Attempts(t, q, id) == Attempts(s, q, id)
  {
    PutCounts(s, p, e, reason, false, PUT_OK);
    forall q ensures RegularPath(q) == RegularPath(p) <==> q == p {
      PathsCollide(p, q);
    }
    hide Attempts;
  }

  /** A provider called x.poison and nobody else: after one dead-letter and a restart the record is
      listed, and neither the depth nor the counter knows of it. */
  lemma LoneNameForgotten(x: string, e: Event, reason: string)
    ensures var p := x + POISON;
            var s := Put(Open(map[], []), p, e, reason, false, PUT_OK).store;
            var t := Open(s.files, [RegularPath(p)]);
            && Listing(s.files, [RegularPath(p)])
            && List(t, p) == [Record(p, e, reason, 1, false)] && Depth(s, p) == 1 && Attempts(s, p, e.id) == 1
            && Depth(t, p) == 0 && Attempts(t, p, e.id) == 0
  {
    var p := x + POISON;
    FirstPut(Open(map[], []), p, e, reason);
    PutCounts(Open(map[], []), p, e, reason, false, PUT_OK);
    var s := Put(Open(map[], []), p, e, reason, false, PUT_OK).store;
    SuffixOf(x, POISON);
    PathsCollide(p, p);
    ReopenIs(s, [RegularPath(p)], p);
    assert Largest(ReadBack(s, p), e.id, Attempts(Open(s.files, [RegularPath(p)]), p, e.id));
  }

  function ClashSteps(x: string, e: Event, reason: string): seq<Step> {
    [PutStep(x, e, reason, false, PUT_OK), PutStep(x + POISON, e, reason, false, PUT_OK)]
  }

  function ClashRun(x: string, e: Event, reason: string): seq<Store> {
    var s := Open(map[], []);
    var t := Put(s, x, e, reason, false, PUT_OK).store;
    [s, t, Put(t, x + POISON, e, reason, false, PUT_OK).store]
  }

  /** Two providers called x and x.poison: one dead-letter of the same event for each leaves its id in
      both files of x. */
  lemma PoisonSuffixBreaksHomes(x: string, e: Event, reason: string)
    ensures !OneHome(ClashRun(x, e, reason)[2], x)
  {
    var run := ClashRun(x, e, reason);
    FirstPut(run[0], x, e, reason);
    PathsCollide(x, x + POISON);
    FirstPut(run[1], x + POISON, e, reason);
    assert List(run[2], x) == [Record(x, e, reason, 1, false)];
    assert ListPoison(run[2], x) == List(run[2], x + POISON) == [Record(x + POISON, e, reason, 1, false)];
    assert List(run[2], x)[0].event.id == ListPoison(run[2], x)[0].event.id;
  }

  /** No run of these providers puts an id in both files of one of them. */
  ghost predicate AlwaysOneHome(providers: set<string>) {
    forall run, steps, i, p :: IsRun(run, steps, providers) && 0 <= i < |run| && p in providers ==> OneHome(run[i], p)
  }

  /** Exactly when the two files of every provider stay disjoint in every run. */
  lemma OneHomeIffApart(providers: set<string>)
    ensures AlwaysOneHome(providers) <==> Apart(providers)
  {
    if Apart(providers) {
      forall run, steps, i, p | IsRun(run, steps, providers) && 0 <= i < |run| && p in providers ensures OneHome(run[i], p) {
        HomesAreDisjoint(run, steps, providers, i);
        assert Homes(run[i], p);
      }
    } else {
      var x :| x in providers && x + POISON in providers;
      var e := Event("", "", "", None, map[], []);
      PoisonSuffixBreaksHomes(x, e, "");
      var run, steps := ClashRun(x, e, ""), ClashSteps(x, e, "");
      assert IsRun(run, steps, providers);
      assert !OneHome(run[2], x);
    }
  }
}
