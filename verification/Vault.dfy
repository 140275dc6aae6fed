/**
 The reversible vault (internal/quarantine/vault.go, links_unix.go) and its record table
 (internal/store/quarantine.go): what each operation does to the site, to the copies and to the
 records, when any call may fail and the process may die at any call.
 */
module Vault {
  import opened Optional
  import opened Paths
  import opened Text
  import opened Calendar
  import opened Timestamps

  type Bytes = seq<bv8>

  /** A digest; distinct contents have distinct digests. `NoSha` means "none given", `NoOnesSha` is a text no content has. */
  datatype Sha = NoSha | NoOnesSha | ShaOf(content: Bytes)

  type Time = t: Instant | InRange(t) witness 0

  /** A file's content and metadata; `perms` may hold more bits than the nine of rwxrwxrwx. */
  datatype FileState = FileState(content: Bytes, perms: nat, mtime: Time)

  /** A name in the site: a file, a symbolic link that leads to a file, one that leads nowhere, or something else. */
  datatype Entry = Hard(ino: nat) | Sym(ino: nat) | Dangling | Special

  datatype Status = Active | Restored | Purged

  /** A row of `quarantine_items`, with the columns that restoring and retention read. */
  datatype Item = Item(original: string, vaultPath: string, sha: Sha, perms: string, mtime: Option<string>,
                       retention: Option<string>, status: Status)

  /** What a removal that succeeded took out of the site. */
  datatype Taken = Taken(path: string, file: FileState)

  /**
   The disk and the database. Vault paths and site paths are different places. `moved` is not part
   of the program: it remembers, per reference, what the program has removed.
   */
  datatype World = World(site: map<string, Entry>, inodes: map<nat, FileState>, nextIno: nat,
                         copies: map<string, Bytes>, items: map<string, Item>, moved: map<string, Taken>)

  // ---- calls and their fates ----

  datatype Call =
    | ReadSource | StatSource | CountLinks | MakeRef | MakeVaultDir | CopyIn | ChmodCopy | InsertItem
    | RemoveOriginal | ForceRecord | RemoveCopy
    | LoadItem | ReadCopy | StatOriginal | MakeSiteDir | CopyOut | RemovePartial | ChmodOriginal
    | ChtimesOriginal | MarkRestored | MarkPurged | DropCopy

  /**
   How a call ends. A copy, a removal or a statement that fails, or at which the process dies, may
   have had part of its effect: `done` counts the bytes a copy wrote after creating its file, and
   for a removal or a statement any positive number means that it took effect all the same. A copy
   may also succeed having written other bytes than it should.
   */
  datatype Fate = Works | Fails(done: nat) | Dies(done: nat) | Garbles(stream: Bytes)

  type Fates = Call -> Fate

  const ALL_WORK: Fates := (c: Call) => Works

  datatype Reason =
    | Unreadable | HashMismatch | NotAPlainFile | OutsideRoots | OtherNames | NoRef | VaultUnwritable
    | NotRecorded | NotRemoved | NotFound | NotInVault | VaultCorrupted | TargetExists | RestoreFailed | CopyLeft

  datatype Outcome = Ok | Refused(why: Reason) | Died

  predicate Failed(f: Fate) {
    f.Fails? || f.Garbles?
  }

  /** A statement or a removal took effect: it worked, or it failed or died after its effect. */
  predicate Effective(fate: Fate) {
    fate.Works? || (!fate.Garbles? && fate.done > 0)
  }

  // ---- names and contents ----

  /** The file a path leads to, following a symbolic link as Open and Stat do. */
  function Resolve(w: World, path: string): Option<FileState> {
    if path in w.site && (w.site[path].Hard? || w.site[path].Sym?) && w.site[path].ino in w.inodes
    then Some(w.inodes[w.site[path].ino]) else None
  }

  predicate Exists(w: World, path: string) {
    path in w.site && (Resolve(w, path).Some? || w.site[path].Special?)
  }

  /** The other names of the file behind a name: its link count, less one. */
  function OtherNamesOf(w: World, path: string): set<string>
    requires path in w.site
  {
    set q | q in w.site && q != path && w.site[path].Hard? && w.site[q] == w.site[path]
  }

  /** `os.Remove` on a site path: the name goes, and with the last name the file. */
  function Unlink(w: World, path: string): World {
    if path !in w.site then w
    else if w.site[path].Hard? && OtherNamesOf(w, path) == {} then
      w.(site := w.site - {path}, inodes := w.inodes - {w.site[path].ino})
    else w.(site := w.site - {path})
  }

  function DropAt(w: World, vaultPath: string): World {
    w.(copies := w.copies - {vaultPath})
  }

  function SetStatus(w: World, ref: string, s: Status): World
    requires ref in w.items
  {
    w.(items := w.items[ref := w.items[ref].(status := s)])
  }

  // ---- octal permissions ----

  function OctalDigit(d: nat): char
    requires d < 8
  {
    ('0' as int + d) as char
  }

  /** `fmt.Sprintf("%04o", mode.Perm())`: the nine permission bits only. */
  function FormatPerms(perms: nat): string {
    var p := perms % 512;
    ['0', OctalDigit(p / 64), OctalDigit(p / 8 % 8), OctalDigit(p % 8)]
  }

  /** `fmt.Sscanf(s, "%o", ...)`: the leading octal digits, at least one. */
  function ParsePerms(s: string): Option<nat> {
    if s == "" || !('0' <= s[0] <= '7') then None else Some(OctalValue(s, 0))
  }

  function OctalValue(s: string, acc: nat): nat {
    if s == "" || !('0' <= s[0] <= '7') then acc else OctalValue(s[1..], 8 * acc + (s[0] as int - '0' as int))
  }

  /** Printing and reading back restores the nine bits of every mode. */
  lemma PermsRoundTrip(perms: nat)
    ensures ParsePerms(FormatPerms(perms)) == Some(perms % 512)
  {
    var s, p := FormatPerms(perms), perms % 512;
    assert s[1..][1..][1..][1..] == "";
    assert s[1..][0] == s[1] && s[1..][1..][0] == s[2] && s[1..][1..][1..][0] == s[3];
    assert OctalValue(s[1..][1..][1..], p / 8) == p;
    assert OctalValue(s[1..][1..], p / 64) == OctalValue(s[1..][1..][1..], p / 8);
    assert OctalValue(s[1..], 0) == OctalValue(s[1..][1..], p / 64);
  }

  // ---- Quarantine ----

  /** The arguments of `Quarantine`, with the reference, vault path and retention it computes. */
  datatype Request = Request(path: string, expected: Sha, ref: string, vaultPath: string, retention: Time, roots: seq<string>)

  predicate Expressible(path: string) {
    '\n' !in path && '\r' !in path && '\0' !in path
  }

  /** Everything checked before anything is touched: the re-hash first, the link count last. */
  function Check(w: World, rq: Request, fates: Fates): Option<Outcome> {
    var source := Resolve(w, rq.path);
    if fates(ReadSource).Dies? then Some(Died)
    else if Failed(fates(ReadSource)) || source.None? then Some(Refused(Unreadable))
    else if rq.expected != NoSha && rq.expected != ShaOf(source.value.content) then Some(Refused(HashMismatch))
    else if fates(StatSource).Dies? then Some(Died)
    else if Failed(fates(StatSource)) then Some(Refused(Unreadable))
    else if !Expressible(rq.path) then Some(Refused(NotAPlainFile))
    else if rq.roots != [] && !WithinAny(rq.path, rq.roots) then Some(Refused(OutsideRoots))
    else if fates(CountLinks).Dies? then Some(Died)
    else if Failed(fates(CountLinks)) then Some(Refused(Unreadable))
    else if !w.site[rq.path].Hard? then Some(Refused(NotAPlainFile))
    else if |OtherNamesOf(w, rq.path)| > 0 then Some(Refused(OtherNames))
    else if fates(MakeRef).Dies? then Some(Died)
    else if Failed(fates(MakeRef)) then Some(Refused(NoRef))
    else if fates(MakeVaultDir).Dies? then Some(Died)
    else if Failed(fates(MakeVaultDir)) then Some(Refused(VaultUnwritable))
    else None
  }

  function Prefix(content: Bytes, n: nat): Bytes {
    if n <= |content| then content[..n] else content
  }

  /** What an exclusive copy leaves at its destination, if anything, and the digest it reports. */
  datatype Copy = Copy(left: Option<Bytes>, reported: Option<Sha>)

  function CopyVerify(content: Bytes, occupied: bool, fate: Fate): Copy {
    if occupied then Copy(None, None)
    else match fate
      case Works => Copy(Some(content), Some(ShaOf(content)))
      case Garbles(stream) => Copy(Some(stream), Some(ShaOf(stream)))
      case Fails(n) => Copy(if n == 0 then None else Some(Prefix(content, n - 1)), None)
      case Dies(n) => Copy(if n == 0 then None else Some(Prefix(content, n - 1)), None)
  }

  /** `os.Remove` of the copy on a failure path; its own failure is ignored. */
  function Discard(w: World, vaultPath: string, fate: Fate, otherwise: Outcome): (World, Outcome) {
    (if Effective(fate) then DropAt(w, vaultPath) else w, if fate.Dies? then Died else otherwise)
  }

  function NewItem(rq: Request, file: FileState): Item {
    Item(rq.path, rq.vaultPath, ShaOf(file.content), FormatPerms(file.perms), NullTime(file.mtime), NullTime(rq.retention), Active)
  }

  /** The insert refuses rows that could not be restored, and the primary key refuses a repeated reference. */
  predicate Insertable(w: World, rq: Request) {
    rq.ref != "" && rq.vaultPath != "" && rq.path != "" && rq.ref !in w.items
  }

  /** Steps 2 and 3 of the protocol: copy, and verify the copy, before touching the original. */
  function Quarantine(w: World, rq: Request, fates: Fates): (World, Outcome) {
    var refusal := Check(w, rq, fates);
    if refusal.Some? then (w, refusal.value)
    else
      var file := Resolve(w, rq.path).value;
      var copy := CopyVerify(file.content, rq.vaultPath in w.copies, fates(CopyIn));
      var w1 := if copy.left.Some? then w.(copies := w.copies[rq.vaultPath := copy.left.value]) else w;
      if fates(CopyIn).Dies? then (w1, Died)
      else if copy.reported != Some(ShaOf(file.content)) then
        Discard(w1, rq.vaultPath, fates(RemoveCopy), Refused(VaultUnwritable))
      else if fates(ChmodCopy).Dies? then (w1, Died)
      else Record(w1, rq, file, fates)
  }

  /** Step 4: the record is written before the original is removed. */
  function Record(w: World, rq: Request, file: FileState, fates: Fates): (World, Outcome) {
    var fate := fates(InsertItem);
    var w1 := if Insertable(w, rq) && Effective(fate)
              then w.(items := w.items[rq.ref := NewItem(rq, file)]) else w;
    if fate.Dies? then (w1, Died)
    else if !fate.Works? || !Insertable(w, rq) then Discard(w1, rq.vaultPath, fates(RemoveCopy), Refused(NotRecorded))
    else Remove(w1, rq, file, fates)
  }

  /** Step 5: a removal that reports failure is taken at its word, and the record and the copy are given up. */
  function Remove(w: World, rq: Request, file: FileState, fates: Fates): (World, Outcome)
    requires rq.ref in w.items
  {
    var fate := fates(RemoveOriginal);
    var w1 := if Effective(fate) then Unlink(w, rq.path).(moved := w.moved[rq.ref := Taken(rq.path, file)]) else w;
    if fate.Works? then (w1, Ok) else if fate.Dies? then (w1, Died)
    else GiveUp(w1, rq, fates)
  }

  function GiveUp(w: World, rq: Request, fates: Fates): (World, Outcome)
    requires rq.ref in w.items
  {
    var fate := fates(ForceRecord);
    var w1 := if Effective(fate) then SetStatus(w, rq.ref, Purged) else w;
    if fate.Dies? then (w1, Died)
    else Discard(w1, rq.vaultPath, fates(RemoveCopy), Refused(NotRemoved))
  }

  // ---- Restore ----

  /** What is checked before anything is written: the record, the copy's digest, a free original path. */
  function CheckRestore(w: World, ref: string, fates: Fates): Option<Outcome> {
    if fates(LoadItem).Dies? then Some(Died)
    else if Failed(fates(LoadItem)) || ref !in w.items then Some(Refused(NotFound))
    else
      var item := w.items[ref];
      if item.status != Active then Some(Refused(NotInVault))
      else if fates(ReadCopy).Dies? then Some(Died)
      else if Failed(fates(ReadCopy)) || item.vaultPath !in w.copies then Some(Refused(Unreadable))
      else if item.sha != ShaOf(w.copies[item.vaultPath]) then Some(Refused(VaultCorrupted))
      else if fates(StatOriginal).Dies? then Some(Died)
      else if fates(StatOriginal).Works? && Exists(w, item.original) then Some(Refused(TargetExists))
      else if fates(MakeSiteDir).Dies? then Some(Died)
      else if Failed(fates(MakeSiteDir)) then Some(Refused(RestoreFailed))
      else None
  }

  /** A new file under a new name, with the mode and time a fresh file has. */
  function Create(w: World, path: string, content: Bytes, now: Time): World {
    w.(site := w.site[path := Hard(w.nextIno)], inodes := w.inodes[w.nextIno := FileState(content, 384, now)],
       nextIno := w.nextIno + 1)
  }

  function DiscardPartial(w: World, path: string, fate: Fate, why: Reason): (World, Outcome) {
    (if Effective(fate) then Unlink(w, path) else w, if fate.Dies? then Died else Refused(why))
  }

  function Restore(w: World, ref: string, now: Time, fates: Fates): (World, Outcome) {
    var refusal := CheckRestore(w, ref, fates);
    if refusal.Some? then (w, refusal.value)
    else
      var item := w.items[ref];
      var copy := CopyVerify(w.copies[item.vaultPath], item.original in w.site, fates(CopyOut));
      var w1 := if copy.left.Some? then Create(w, item.original, copy.left.value, now) else w;
      if fates(CopyOut).Dies? then (w1, Died) else Settle(w1, ref, w.nextIno, copy.reported, fates)
  }

  /** The copy out is kept only when it was written in full, as recorded. */
  function Settle(w: World, ref: string, ino: nat, reported: Option<Sha>, fates: Fates): (World, Outcome)
    requires ref in w.items && (reported.Some? ==> ino in w.inodes)
  {
    var item := w.items[ref];
    if reported.None? then DiscardPartial(w, item.original, fates(RemovePartial), RestoreFailed)
    else if reported.value != item.sha then DiscardPartial(w, item.original, fates(RemovePartial), VaultCorrupted)
    else Finish(w, ref, ino, fates)
  }

  function SetFile(w: World, ino: nat, file: FileState): World {
    w.(inodes := w.inodes[ino := file])
  }

  /** The mode, when the recorded one can be read; a failing chmod is ignored. */
  function Finish(w: World, ref: string, ino: nat, fates: Fates): (World, Outcome)
    requires ref in w.items && ino in w.inodes
  {
    var perms := ParsePerms(w.items[ref].perms);
    if perms.None? then FinishTime(w, ref, ino, fates)
    else
      var fate := fates(ChmodOriginal);
      var w1 := if fate.Works? then SetFile(w, ino, w.inodes[ino].(perms := perms.value)) else w;
      if fate.Dies? then (w1, Died) else FinishTime(w1, ref, ino, fates)
  }

  /** The time, when one was recorded. */
  function FinishTime(w: World, ref: string, ino: nat, fates: Fates): (World, Outcome)
    requires ref in w.items && ino in w.inodes
  {
    var mtime := TimeFromNull(w.items[ref].mtime);
    if mtime == ZERO || !InRange(mtime) then Close(w, ref, Restored, fates(MarkRestored), fates, Ok)
    else
      var fate := fates(ChtimesOriginal);
      var w1 := if fate.Works? then SetFile(w, ino, w.inodes[ino].(mtime := mtime)) else w;
      if fate.Dies? then (w1, Died) else Close(w1, ref, Restored, fates(MarkRestored), fates, Ok)
  }

  /**
   The record is closed first; the copy leaves the vault only after that. A copy that cannot be
   removed is no failure of a restore, but one of a purge: `left` is what is then reported.
   */
  function Close(w: World, ref: string, s: Status, fate: Fate, fates: Fates, left: Outcome): (World, Outcome)
    requires ref in w.items
  {
    var w1 := if Effective(fate) then SetStatus(w, ref, s) else w;
    if fate.Dies? then (w1, Died)
    else if !fate.Works? then (w1, Refused(NotRecorded))
    else Discard(w1, w.items[ref].vaultPath, fates(DropCopy), if Failed(fates(DropCopy)) then left else Ok)
  }

  // ---- Purge ----

  /** `retention_until IS NOT NULL AND retention_until < ?`, on the stored text. */
  predicate RetentionOver(item: Item, now: Time) {
    item.retention.Some? && Less(item.retention.value, FormatTime(now))
  }

  function Purge(w: World, ref: string, force: bool, now: Time, fates: Fates): (World, Outcome) {
    if fates(LoadItem).Dies? then (w, Died)
    else if Failed(fates(LoadItem)) || ref !in w.items then (w, Refused(NotFound))
    else if w.items[ref].status != Active then (w, Refused(NotInVault))
    else
      if force || RetentionOver(w.items[ref], now) then Close(w, ref, Purged, fates(MarkPurged), fates, Refused(CopyLeft))
      else if fates(MarkPurged).Dies? then (w, Died)
      else (w, Refused(NotFound))
  }

  // ---- the operations, call by call ----

  class Process {
    var world: World

    constructor (w: World)
      ensures world == w
    {
      world := w;
    }

    /** `Quarantine`, in the order of the source: each return is one of its error exits or a death. */
    method QuarantineFile(rq: Request, fates: Fates) returns (o: Outcome)
      modifies this
      ensures (world, o) == Quarantine(old(world), rq, fates)
    {
      if fates(ReadSource).Dies? { return Died; }
      var source := Resolve(world, rq.path);
      if Failed(fates(ReadSource)) || source.None? { return Refused(Unreadable); }
      var file := source.value;
      var current := ShaOf(file.content);
      if rq.expected != NoSha && current != rq.expected { return Refused(HashMismatch); }
      if fates(StatSource).Dies? { return Died; }
      if Failed(fates(StatSource)) { return Refused(Unreadable); }
      if !Expressible(rq.path) { return Refused(NotAPlainFile); }
      if |rq.roots| > 0 && !WithinAny(rq.path, rq.roots) { return Refused(OutsideRoots); }
      if fates(CountLinks).Dies? { return Died; }
      if Failed(fates(CountLinks)) { return Refused(Unreadable); }
      if !world.site[rq.path].Hard? { return Refused(NotAPlainFile); }
      if |OtherNamesOf(world, rq.path)| > 0 { return Refused(OtherNames); }
      if fates(MakeRef).Dies? { return Died; }
      if Failed(fates(MakeRef)) { return Refused(NoRef); }
      if fates(MakeVaultDir).Dies? { return Died; }
      if Failed(fates(MakeVaultDir)) { return Refused(VaultUnwritable); }

      var copied := CopyVerify(file.content, rq.vaultPath in world.copies, fates(CopyIn));
      if copied.left.Some? { world := world.(copies := world.copies[rq.vaultPath := copied.left.value]); }
      if fates(CopyIn).Dies? { return Died; }
      if copied.reported != Some(current) {
        o := RemoveTheCopy(rq.vaultPath, fates(RemoveCopy), Refused(VaultUnwritable));
        return;
      }
      if fates(ChmodCopy).Dies? { return Died; }

      var insertable, insert := Insertable(world, rq), fates(InsertItem);
      if insertable && Effective(insert) {
        world := world.(items := world.items[rq.ref := NewItem(rq, file)]);
      }
      if insert.Dies? { return Died; }
      if !insert.Works? || !insertable {
        o := RemoveTheCopy(rq.vaultPath, fates(RemoveCopy), Refused(NotRecorded));
        return;
      }

      var removal := fates(RemoveOriginal);
      if Effective(removal) {
        world := Unlink(world, rq.path).(moved := world.moved[rq.ref := Taken(rq.path, file)]);
      }
      if removal.Dies? { return Died; }
      if !removal.Works? {
        var force := fates(ForceRecord);
        if Effective(force) { world := SetStatus(world, rq.ref, Purged); }
        if force.Dies? { return Died; }
        o := RemoveTheCopy(rq.vaultPath, fates(RemoveCopy), Refused(NotRemoved));
        return;
      }
      o := Ok;
    }

    method RemoveTheCopy(vaultPath: string, fate: Fate, otherwise: Outcome) returns (o: Outcome)
      modifies this
      ensures (world, o) == Discard(old(world), vaultPath, fate, otherwise)
    {
      if Effective(fate) { world := DropAt(world, vaultPath); }
      o := if fate.Dies? then Died else otherwise;
    }

    /** `Restore`. */
    method RestoreItem(ref: string, now: Time, fates: Fates) returns (o: Outcome)
      modifies this
      ensures (world, o) == Restore(old(world), ref, now, fates)
    {
      if fates(LoadItem).Dies? { return Died; }
      if Failed(fates(LoadItem)) || ref !in world.items { return Refused(NotFound); }
      var item := world.items[ref];
      if item.status != Active { return Refused(NotInVault); }
      if fates(ReadCopy).Dies? { return Died; }
      if Failed(fates(ReadCopy)) || item.vaultPath !in world.copies { return Refused(Unreadable); }
      if ShaOf(world.copies[item.vaultPath]) != item.sha { return Refused(VaultCorrupted); }
      if fates(StatOriginal).Dies? { return Died; }
      if fates(StatOriginal).Works? && Exists(world, item.original) { return Refused(TargetExists); }
      if fates(MakeSiteDir).Dies? { return Died; }
      if Failed(fates(MakeSiteDir)) { return Refused(RestoreFailed); }

      var ino := world.nextIno;
      var copied := CopyVerify(world.copies[item.vaultPath], item.original in world.site, fates(CopyOut));
      if copied.left.Some? { world := Create(world, item.original, copied.left.value, now); }
      if fates(CopyOut).Dies? { return Died; }
      if copied.reported.None? {
        o := RemoveTheFile(item.original, fates(RemovePartial), RestoreFailed);
        return;
      }
      if copied.reported.value != item.sha {
        o := RemoveTheFile(item.original, fates(RemovePartial), VaultCorrupted);
        return;
      }

      var perms := ParsePerms(item.perms);
      if perms.Some? {
        if fates(ChmodOriginal).Works? {
          world := world.(inodes := world.inodes[ino := world.inodes[ino].(perms := perms.value)]);
        }
        if fates(ChmodOriginal).Dies? { return Died; }
      }
      var mtime := TimeFromNull(item.mtime);
      if mtime != ZERO && InRange(mtime) {
        if fates(ChtimesOriginal).Works? {
          world := world.(inodes := world.inodes[ino := world.inodes[ino].(mtime := mtime)]);
        }
        if fates(ChtimesOriginal).Dies? { return Died; }
      }
      var mark := fates(MarkRestored);
      if Effective(mark) { world := SetStatus(world, ref, Restored); }
      if mark.Dies? { return Died; }
      if !mark.Works? { return Refused(NotRecorded); }
      o := RemoveTheCopy(item.vaultPath, fates(DropCopy), Ok);
    }

    method RemoveTheFile(path: string, fate: Fate, why: Reason) returns (o: Outcome)
      modifies this
      ensures (world, o) == DiscardPartial(old(world), path, fate, why)
    {
      if Effective(fate) { world := Unlink(world, path); }
      o := if fate.Dies? then Died else Refused(why);
    }

    /** `Purge`. */
    method PurgeItem(ref: string, force: bool, now: Time, fates: Fates) returns (o: Outcome)
      modifies this
      ensures (world, o) == Purge(old(world), ref, force, now, fates)
    {
      if fates(LoadItem).Dies? { return Died; }
      if Failed(fates(LoadItem)) || ref !in world.items { return Refused(NotFound); }
      var item := world.items[ref];
      if item.status != Active { return Refused(NotInVault); }
      var mark := fates(MarkPurged);
      var accepted := force || RetentionOver(item, now);
      if accepted && Effective(mark) { world := SetStatus(world, ref, Purged); }
      if mark.Dies? { return Died; }
      if !accepted { return Refused(NotFound); }
      if !mark.Works? { return Refused(NotRecorded); }
      o := RemoveTheCopy(item.vaultPath, fates(DropCopy), if Failed(fates(DropCopy)) then Refused(CopyLeft) else Ok);
    }
  }
}
