/** The dead-letter queue as the program runs it: maps updated in place, files filtered and rewritten.
    Each method is proved equal to its counterpart in DlqState. */
module Dlq {
  import opened Types
  import opened Seqs
  import opened DlqState

  class DLQ {
    /** The directory: file name to the records of the file. */
    var files: map<string, seq<Record>>
    var depth: map<string, int>
    var attempts: map<string, map<string, nat>>

    ghost function St(): Store
      reads this
    {
      Store(files, depth, attempts)
    }

    /** Scans the directory in the order it is listed and counts what the files hold. */
    constructor Open(files: map<string, seq<Record>>, names: seq<string>)
      ensures St() == DlqState.Open(files, names)
    {
      this.files, depth, attempts := files, map[], map[];
      new;
      for i := 0 to |names|
        invariant St() == DlqState.Open(files, names[..i])
      {
        TakeTake(names, i, i + 1);
        if EndsWith(names[i], JSONL) {
          Scan(ProviderOf(names[i]), ReadRecords(files, names[i]));
        }
      }
      TakeAll(names);
    }

    method Scan(provider: string, records: seq<Record>)
      modifies this`depth, this`attempts
      ensures St() == ScanRecords(old(St()), provider, records)
    {
      for i := 0 to |records|
        invariant St() == ScanRecords(old(St()), provider, records[..i])
      {
        TakeTake(records, i, i + 1);
        var mine: map<string, nat> := if provider in attempts then attempts[provider] else map[];
        var id := records[i].event.id;
        if records[i].attempts > (if id in mine then mine[id] else 0) {
          mine := mine[id := records[i].attempts];
        }
        attempts := attempts[provider := mine];
        depth := depth[provider := (if provider in depth then depth[provider] else 0) + 1];
      }
      TakeAll(records);
    }

    /** Rewrites a file without the records of the given ids, if it has any. */
    method RemoveFromFile(path: string, remove: set<string>, io: RewriteIo) returns (removed: nat, ok: bool)
      modifies this`files
      ensures Rewritten(files, removed, ok) == RewriteFile(old(files), path, remove, io)
    {
      if !io.replaceOk {
        return 0, false;
      }
      var records := ReadRecords(files, path);
      var kept: seq<Record> := [];
      removed := 0;
      for i := 0 to |records|
        invariant kept == Kept(records[..i], remove) && removed == i - |kept|
        invariant files == old(files)
      {
        TakeTake(records, i, i + 1);
        if records[i].event.id in remove {
          removed := removed + 1;
        } else {
          kept := kept + [records[i]];
        }
      }
      TakeAll(records);
      if removed == 0 {
        return 0, true;
      }
      files := files[path := kept];
      if !io.reopenOk {
        return 0, false;
      }
      return removed, true;
    }

    method CountAttempt(provider: string, id: string) returns (n: nat)
      modifies this`attempts
      ensures St() == Counted(old(St()), provider, id) && n == Attempts(St(), provider, id)
    {
      if provider !in attempts {
        attempts := attempts[provider := map[]];
      }
      var mine: map<string, nat> := attempts[provider];
      n := (if id in mine then mine[id] else 0) + 1;
      attempts := attempts[provider := mine[id := n]];
    }

    /** Appends a line and counts it once it is synced. */
    method Append(provider: string, path: string, rec: Record, io: PutIo) returns (ok: bool)
      modifies this`files, this`depth
      ensures Outcome(St(), ok) == FileRecord(old(St()), provider, path, rec, io)
    {
      if !io.writeOk {
        return false;
      }
      files := files[path := ReadRecords(files, path) + [rec]];
      if !io.syncOk {
        return false;
      }
      depth := depth[provider := (if provider in depth then depth[provider] else 0) + 1];
      return true;
    }

    /** The purge that a record makes when it is poisoned. */
    method Purge(provider: string, id: string, io: RewriteIo) returns (ok: bool)
      modifies this`files, this`depth
      ensures var r := RewriteFile(old(files), RegularPath(provider), {id}, io);
              && ok == r.ok && attempts == old(attempts) && files == r.files
              && depth == (if ok then old(depth)[provider := Depth(old(St()), provider) - r.removed] else old(depth))
    {
      var purged;
      purged, ok := RemoveFromFile(RegularPath(provider), {id}, io);
      if ok {
        depth := depth[provider := (if provider in depth then depth[provider] else 0) - purged];
      }
    }

    /** Counts the attempt, then files the record; a poison record first purges its id's regular ones. */
    method Put(provider: string, event: Event, reason: string, permanent: bool, io: PutIo) returns (ok: bool)
      modifies this
      ensures Outcome(St(), ok) == DlqState.Put(old(St()), provider, event, reason, permanent, io)
    {
      hide Counted, RewriteFile, FileRecord, RegularPath, PoisonPath, Attempts, Depth;
      var n := CountAttempt(provider, event.id);
      var threshold := EXHAUSTED_POISON_THRESHOLD;
      if permanent {
        threshold := PERMANENT_POISON_THRESHOLD;
      }
      var poisoned := n >= threshold;
      var rec := Record(provider, event, reason, n, poisoned);
      var path := RegularPath(provider);
      if poisoned {
        path := PoisonPath(provider);
        var purged := Purge(provider, event.id, io.purge);
        if !purged {
          return false;
        }
      }
      ok := Append(provider, path, rec, io);
    }

    method Remove(provider: string, ids: seq<string>, io: RemoveIo) returns (ok: bool)
      modifies this
      ensures Outcome(St(), ok) == DlqState.Remove(old(St()), provider, ids, io)
    {
      if |ids| == 0 {
        return true;
      }
      var remove: set<string> := {};
      for i := 0 to |ids|
        invariant remove == IdSet(ids[..i]) && St() == old(St())
      {
        TakeTake(ids, i, i + 1);
        SplitLast(ids[..i + 1]);
        remove := remove + {ids[i]};
      }
      TakeAll(ids);
      hide IdSet, RewriteFile, RegularPath, PoisonPath;
      var removedTotal, first := RemoveFromFile(RegularPath(provider), remove, io.regular);
      if !first {
        return false;
      }
      var removed, second := RemoveFromFile(PoisonPath(provider), remove, io.poison);
      if !second {
        return false;
      }
      removedTotal := removedTotal + removed;
      depth := depth[provider := (if provider in depth then depth[provider] else 0) - removedTotal];
      if depth[provider] < 0 {
        depth := depth[provider := 0];
      }
      return true;
    }
  }
}
