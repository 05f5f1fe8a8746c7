/** The dead-letter queue as a state machine on values: two files per provider, a depth and an attempt
    counter kept in memory, and what each operation does to them with every I/O outcome. */
module DlqState {
  import opened Types

  datatype Record = Record(provider: string, event: Event, reason: string, attempts: nat, poisoned: bool)

  /** `files` is the directory; the rest is rebuilt from it by Open. */
  datatype Store = Store(
    files: map<string, seq<Record>>,
    depth: map<string, int>,
    attempts: map<string, map<string, nat>>)

  const PERMANENT_POISON_THRESHOLD := 2
  const EXHAUSTED_POISON_THRESHOLD := 3

  const JSONL := ".jsonl"
  const POISON := ".poison"

  function RegularPath(provider: string): string {
    provider + JSONL
  }

  function PoisonPath(provider: string): string {
    provider + POISON + JSONL
  }

  function ReadRecords(files: map<string, seq<Record>>, path: string): seq<Record> {
    if path in files then files[path] else []
  }

  function List(s: Store, provider: string): seq<Record> {
    ReadRecords(s.files, RegularPath(provider))
  }

  function ListPoison(s: Store, provider: string): seq<Record> {
    ReadRecords(s.files, PoisonPath(provider))
  }

  function Depth(s: Store, provider: string): int {
    if provider in s.depth then s.depth[provider] else 0
  }

  function Attempts(s: Store, provider: string, id: string): nat {
    if provider in s.attempts && id in s.attempts[provider] then s.attempts[provider][id] else 0
  }

  /** The records whose id is not to be removed. */
  function Kept(recs: seq<Record>, remove: set<string>): seq<Record> {
    if recs == [] then []
    else
      var n := |recs| - 1;
      Kept(recs[..n], remove) + (if recs[n].event.id in remove then [] else [recs[n]])
  }

  /** A rewrite either replaces the file whole or leaves it as it is, be it that it cannot be read or
      that the new file cannot be put in its place. It can still fail once the file is replaced, when
      the new file cannot be opened for appending. */
  datatype RewriteIo = RewriteIo(replaceOk: bool, reopenOk: bool)

  datatype Rewritten = Rewritten(files: map<string, seq<Record>>, removed: nat, ok: bool)

  /** Drop the records of the given ids from a file. A file without any is left alone. */
  function RewriteFile(files: map<string, seq<Record>>, path: string, remove: set<string>, io: RewriteIo): Rewritten {
    var recs, kept := ReadRecords(files, path), Kept(ReadRecords(files, path), remove);
    if !io.replaceOk then Rewritten(files, 0, false)
    else if |kept| >= |recs| then Rewritten(files, 0, true)
    else if !io.reopenOk then Rewritten(files[path := kept], 0, false)
    else Rewritten(files[path := kept], |recs| - |kept|, true)
  }

  function AppendRecord(files: map<string, seq<Record>>, path: string, rec: Record): map<string, seq<Record>> {
    files[path := ReadRecords(files, path) + [rec]]
  }

  function Counted(s: Store, provider: string, id: string): Store {
    var mine := if provider in s.attempts then s.attempts[provider] else map[];
    s.(attempts := s.attempts[provider := mine[id := Attempts(s, provider, id) + 1]])
  }

  /** How a put goes: the purge of the regular file, and writing and syncing the line. A failed write
      leaves no line; a failed sync leaves it on file although the put reports an error. */
  datatype PutIo = PutIo(purge: RewriteIo, writeOk: bool, syncOk: bool)

  const REWRITE_OK := RewriteIo(true, true)
  const PUT_OK := PutIo(REWRITE_OK, true, true)

  datatype Outcome = Outcome(store: Store, ok: bool)

  predicate Poisons(attempts: nat, permanent: bool) {
    attempts >= if permanent then PERMANENT_POISON_THRESHOLD else EXHAUSTED_POISON_THRESHOLD
  }

  /** Append a line and count it. */
  function FileRecord(s: Store, provider: string, path: string, rec: Record, io: PutIo): Outcome {
    if !io.writeOk then Outcome(s, false)
    else
      var written := s.(files := AppendRecord(s.files, path, rec));
      if !io.syncOk then Outcome(written, false)
      else Outcome(written.(depth := s.depth[provider := Depth(s, provider) + 1]), true)
  }

  /** The counter goes up first. A record that reaches its threshold goes to the poison file, after
      every earlier record of its id has been purged from the regular one. */
  function Put(s: Store, provider: string, event: Event, reason: string, permanent: bool, io: PutIo): Outcome {
    var c := Counted(s, provider, event.id);
    var attempts := Attempts(c, provider, event.id);
    var rec := Record(provider, event, reason, attempts, Poisons(attempts, permanent));
    if !rec.poisoned then FileRecord(c, provider, RegularPath(provider), rec, io)
    else
      var r := RewriteFile(c.files, RegularPath(provider), {event.id}, io.purge);
      if !r.ok then Outcome(c.(files := r.files), false)
      else
        FileRecord(c.(files := r.files, depth := c.depth[provider := Depth(c, provider) - r.removed]),
                   provider, PoisonPath(provider), rec, io)
  }

  /** How the rewrites of the regular and of the poison file go. */
  datatype RemoveIo = RemoveIo(regular: RewriteIo, poison: RewriteIo)

  const REMOVE_OK := RemoveIo(REWRITE_OK, REWRITE_OK)

  function IdSet(ids: seq<string>): set<string> {
    set id | id in ids
  }

  /** Deletes ids from both files. The depth is only adjusted once both rewrites have succeeded. */
  function Remove(s: Store, provider: string, ids: seq<string>, io: RemoveIo): Outcome {
    if ids == [] then Outcome(s, true)
    else
      var first := RewriteFile(s.files, RegularPath(provider), IdSet(ids), io.regular);
      if !first.ok then Outcome(s.(files := first.files), false)
      else
        var second := RewriteFile(first.files, PoisonPath(provider), IdSet(ids), io.poison);
        if !second.ok then Outcome(s.(files := second.files), false)
        else
          var left := Depth(s, provider) - (first.removed + second.removed);
          Outcome(s.(files := second.files, depth := s.depth[provider := if left < 0 then 0 else left]), true)
  }

  lemma NothingToRemove(s: Store, provider: string, io: RemoveIo)
    ensures Remove(s, provider, [], io) == Outcome(s, true)
  {
  }

  // ---- Open -------------------------------------------------------------------------------

  predicate EndsWith(s: string, suffix: string) {
    |suffix| <= |s| && s[|s| - |suffix|..] == suffix
  }

  function TrimSuffix(s: string, suffix: string): string {
    if EndsWith(s, suffix) then s[..|s| - |suffix|] else s
  }

  /** The provider a file is attributed to when the directory is scanned. */
  function ProviderOf(path: string): string {
    TrimSuffix(TrimSuffix(path, JSONL), POISON)
  }

  /** One record met by the scan raises the counter to its attempts and adds one to the depth. */
  function ScanRecord(s: Store, provider: string, rec: Record): Store {
    var mine := if provider in s.attempts then s.attempts[provider] else map[];
    var counted :=
      if rec.attempts > Attempts(s, provider, rec.event.id) then mine[rec.event.id := rec.attempts] else mine;
    s.(attempts := s.attempts[provider := counted], depth := s.depth[provider := Depth(s, provider) + 1])
  }

  function ScanRecords(s: Store, provider: string, recs: seq<Record>): Store {
    if recs == [] then s
    else
      var n := |recs| - 1;
      ScanRecord(ScanRecords(s, provider, recs[..n]), provider, recs[n])
  }

  /** The directory listing in the order it is read; other names are skipped. */
  function ScanFiles(s: Store, names: seq<string>): Store {
    if names == [] then s
    else
      var n := |names| - 1;
      var t := ScanFiles(s, names[..n]);
      if EndsWith(names[n], JSONL) then ScanRecords(t, ProviderOf(names[n]), ReadRecords(s.files, names[n])) else t
  }

  function Open(files: map<string, seq<Record>>, names: seq<string>): Store {
    ScanFiles(Store(files, map[], map[]), names)
  }
}
