/** No run of the vault loses bytes: what holds after every call, in every run, wherever it dies. */
module VaultSafety {
  import opened Optional
  import opened Paths
  import opened Text
  import opened Calendar
  import opened Timestamps
  import opened Vault

  // ---- the invariant ----

  ghost predicate SoundDisk(w: World) {
    && (forall p :: p in w.site && w.site[p].Hard? ==> w.site[p].ino in w.inodes)
    && (forall p :: p in w.site && w.site[p].Sym? ==> w.site[p].ino < w.nextIno)
    && (forall i :: i in w.inodes ==> i < w.nextIno)
  }

  predicate IsActive(w: World, ref: string) {
    ref in w.items && w.items[ref].status == Active
  }

  /** The record still answers for bytes that a removal took out of the site. */
  predicate Answers(w: World, ref: string) {
    ref in w.moved && IsActive(w, ref)
  }

  /** The copy is there, byte for byte, and the record says where it belongs and what it was. */
  ghost predicate Intact(w: World, ref: string)
    requires Answers(w, ref)
  {
    var item, taken := w.items[ref], w.moved[ref];
    && item.vaultPath in w.copies && w.copies[item.vaultPath] == taken.file.content
    && item.original == taken.path && item.sha == ShaOf(taken.file.content)
    && item.perms == FormatPerms(taken.file.perms) && item.mtime == NullTime(taken.file.mtime)
  }

  ghost predicate Conserved(w: World) {
    forall r :: Answers(w, r) ==> Intact(w, r)
  }

  /** No two active records share a vault path. */
  ghost predicate OwnPaths(w: World) {
    forall r, s :: r != s && IsActive(w, r) && IsActive(w, s) ==> w.items[r].vaultPath != w.items[s].vaultPath
  }

  /** Every retention column holds a stored time, and everything moved has a record. */
  ghost predicate Recorded(w: World) {
    && (forall r :: r in w.items ==>
          InRange(TimeFromNull(w.items[r].retention)) && w.items[r].retention == NullTime(TimeFromNull(w.items[r].retention)))
    && (forall r :: r in w.moved ==> r in w.items)
  }

  ghost predicate Inv(w: World) {
    SoundDisk(w) && Conserved(w) && OwnPaths(w) && Recorded(w)
  }

  // ---- Quarantine ----

  /** References are fresh, so the vault path built from one is not that of an active record. */
  ghost predicate FreshPath(w: World, vaultPath: string) {
    forall r :: IsActive(w, r) ==> w.items[r].vaultPath != vaultPath
  }

  lemma DiscardKeeps(w: World, vaultPath: string, fate: Fate, otherwise: Outcome)
    requires Inv(w)
    requires forall r :: Answers(w, r) ==> w.items[r].vaultPath != vaultPath
    ensures Inv(Discard(w, vaultPath, fate, otherwise).0)
  {
    var w' := Discard(w, vaultPath, fate, otherwise).0;
    assert w' == w || w' == DropAt(w, vaultPath);
    forall r | Answers(w', r) ensures Intact(w', r) {
      assert Answers(w, r) && Intact(w, r);
    }
  }

  lemma UnlinkKeeps(w: World, path: string)
    requires Inv(w)
    ensures Inv(Unlink(w, path))
  {
    hide FormatFixed, ParseUtc, OctalValue;
    var w' := Unlink(w, path);
    forall p | p in w'.site && w'.site[p].Hard? ensures w'.site[p].ino in w'.inodes {
      if path in w.site && w.site[path] == w.site[p] { assert p in OtherNamesOf(w, path); }
    }
    forall r | Answers(w', r) ensures Intact(w', r) {
      assert Answers(w, r) && Intact(w, r);
    }
  }

  lemma CloseKeeps(w: World, ref: string, s: Status)
    requires Inv(w) && IsActive(w, ref) && s != Active
    ensures Inv(SetStatus(w, ref, s))
    ensures forall r :: Answers(SetStatus(w, ref, s), r) ==> SetStatus(w, ref, s).items[r].vaultPath != w.items[ref].vaultPath
  {
    var w' := SetStatus(w, ref, s);
    forall r | IsActive(w', r) ensures r != ref && IsActive(w, r) && w'.items[r] == w.items[r] {}
    forall r | Answers(w', r) ensures Intact(w', r) { assert Answers(w, r) && Intact(w, r); }
  }

  function Inserted(w: World, rq: Request, file: FileState): World {
    w.(items := w.items[rq.ref := NewItem(rq, file)])
  }

  function Gone(w: World, rq: Request, file: FileState): World {
    Unlink(w, rq.path).(moved := w.moved[rq.ref := Taken(rq.path, file)])
  }

  ghost predicate CopyReady(w: World, rq: Request, file: FileState) {
    rq.vaultPath in w.copies && w.copies[rq.vaultPath] == file.content
  }

  lemma InsertKeeps(w: World, rq: Request, file: FileState)
    requires Inv(w) && FreshPath(w, rq.vaultPath) && rq.ref !in w.items
    ensures Inv(Inserted(w, rq, file)) && rq.ref !in w.moved
  {
    var w' := Inserted(w, rq, file);
    StoredRoundTrip(rq.retention);
    forall r | Answers(w', r) ensures Intact(w', r) { assert Answers(w, r) && Intact(w, r); }
  }

  lemma GoneKeeps(w: World, rq: Request, file: FileState)
    requires Inv(w) && rq.ref in w.items && w.items[rq.ref] == NewItem(rq, file) && CopyReady(w, rq, file)
    ensures Inv(Gone(w, rq, file))
  {
    hide FormatFixed, ParseUtc, OctalValue;
    UnlinkKeeps(w, rq.path);
    var w', u := Gone(w, rq, file), Unlink(w, rq.path);
    forall r | Answers(w', r) ensures Intact(w', r) {
      if r != rq.ref { assert Answers(u, r) && Intact(u, r); }
    }
  }

  // ---- a removal that reports failure ----

  /** The removal of the original took effect. */
  predicate Removed(fates: Fates) {
    Effective(fates(RemoveOriginal))
  }

  /** It took effect and reported failure all the same. */
  predicate FalseReport(fates: Fates) {
    fates(RemoveOriginal).Fails? && Removed(fates)
  }

  /** Giving up takes effect: the record is closed as purged, or the copy is removed. */
  predicate GivenUp(fates: Fates) {
    Effective(fates(ForceRecord)) || (!fates(ForceRecord).Dies? && Effective(fates(RemoveCopy)))
  }

  /** The protocol gets as far as removing the original. */
  predicate ReachesRemoval(w: World, rq: Request, fates: Fates) {
    && Check(w, rq, fates).None? && rq.vaultPath !in w.copies
    && (fates(CopyIn).Works? || fates(CopyIn) == Garbles(Resolve(w, rq.path).value.content))
    && !fates(ChmodCopy).Dies? && Insertable(w, rq) && fates(InsertItem).Works?
  }

  /** A removal that took effect is believed to have failed, and what was kept of the file is given up. */
  predicate Betrayed(w: World, rq: Request, fates: Fates) {
    ReachesRemoval(w, rq, fates) && FalseReport(fates) && GivenUp(fates)
  }

  /** After the removal failed: the record is closed if possible, and the copy discarded. */
  lemma GiveUpKeeps(w: World, rq: Request, fates: Fates)
    requires Inv(w) && IsActive(w, rq.ref) && w.items[rq.ref].vaultPath == rq.vaultPath
    requires rq.ref in w.moved ==> !GivenUp(fates)
    ensures Inv(GiveUp(w, rq, fates).0)
  {
    hide FormatFixed, ParseUtc, OctalValue;
    if Effective(fates(ForceRecord)) {
      CloseKeeps(w, rq.ref, Purged);
      DiscardKeeps(SetStatus(w, rq.ref, Purged), rq.vaultPath, fates(RemoveCopy), Refused(NotRemoved));
    } else if rq.ref !in w.moved {
      OthersElsewhere(w, rq.ref);
      DiscardKeeps(w, rq.vaultPath, fates(RemoveCopy), Refused(NotRemoved));
    }
  }

  lemma OthersElsewhere(w: World, ref: string)
    requires Inv(w) && IsActive(w, ref) && ref !in w.moved
    ensures forall r :: Answers(w, r) ==> w.items[r].vaultPath != w.items[ref].vaultPath
  {
  }

  /** After the copy was verified: the record is written, then the original goes. */
  lemma RecordKeeps(w: World, rq: Request, file: FileState, fates: Fates)
    requires Inv(w) && FreshPath(w, rq.vaultPath) && CopyReady(w, rq, file)
    requires Insertable(w, rq) && fates(InsertItem).Works? ==> !(FalseReport(fates) && GivenUp(fates))
    ensures Inv(Record(w, rq, file, fates).0)
  {
    hide FormatFixed, ParseUtc, OctalValue, GiveUp;
    if Insertable(w, rq) && Effective(fates(InsertItem)) {
      var w1 := Inserted(w, rq, file);
      InsertKeeps(w, rq, file);
      if fates(InsertItem).Works? {
        RemoveKeeps(w1, rq, file, fates);
      } else {
        OthersElsewhere(w1, rq.ref);
        DiscardKeeps(w1, rq.vaultPath, fates(RemoveCopy), Refused(NotRecorded));
      }
    } else {
      DiscardKeeps(w, rq.vaultPath, fates(RemoveCopy), Refused(NotRecorded));
    }
  }

  lemma RemoveKeeps(w: World, rq: Request, file: FileState, fates: Fates)
    requires Inv(w) && IsActive(w, rq.ref) && w.items[rq.ref] == NewItem(rq, file) && CopyReady(w, rq, file)
    requires rq.ref !in w.moved && !(FalseReport(fates) && GivenUp(fates))
    ensures Inv(Remove(w, rq, file, fates).0)
  {
    hide FormatFixed, ParseUtc, FormatPerms, GiveUp;
    var w1 := if Removed(fates) then Gone(w, rq, file) else w;
    GoneKeeps(w, rq, file);
    if Failed(fates(RemoveOriginal)) { GiveUpKeeps(w1, rq, fates); }
  }

  /** Every run of `Quarantine` that is not betrayed, whatever fails and wherever it dies, keeps the invariant. */
  lemma QuarantineKeeps(w: World, rq: Request, fates: Fates)
    requires Inv(w) && FreshPath(w, rq.vaultPath) && !Betrayed(w, rq, fates)
    ensures Inv(Quarantine(w, rq, fates).0)
  {
    hide FormatFixed, Record, FreshPath;
    if Check(w, rq, fates).None? {
      var file := Resolve(w, rq.path).value;
      var copy := CopyVerify(file.content, rq.vaultPath in w.copies, fates(CopyIn));
      var w1 := if copy.left.Some? then PutCopy(w, rq.vaultPath, copy.left.value) else w;
      if copy.left.Some? { PutCopyKeeps(w, rq.vaultPath, copy.left.value); }
      if copy.reported != Some(ShaOf(file.content)) {
        DiscardFresh(w1, rq.vaultPath, fates(RemoveCopy), Refused(VaultUnwritable));
      } else if !fates(CopyIn).Dies? && !fates(ChmodCopy).Dies? {
        assert Insertable(w1, rq) <==> Insertable(w, rq);
        RecordKeeps(w1, rq, file, fates);
      }
    }
  }

  lemma DiscardFresh(w: World, vaultPath: string, fate: Fate, otherwise: Outcome)
    requires Inv(w) && FreshPath(w, vaultPath)
    ensures Inv(Discard(w, vaultPath, fate, otherwise).0)
  {
    DiscardKeeps(w, vaultPath, fate, otherwise);
  }

  function PutCopy(w: World, vaultPath: string, content: Bytes): World {
    w.(copies := w.copies[vaultPath := content])
  }

  lemma PutCopyKeeps(w: World, vaultPath: string, content: Bytes)
    requires Inv(w) && FreshPath(w, vaultPath)
    ensures Inv(PutCopy(w, vaultPath, content)) && FreshPath(PutCopy(w, vaultPath, content), vaultPath)
  {
    var w' := PutCopy(w, vaultPath, content);
    forall r | Answers(w', r) ensures Intact(w', r) { assert Answers(w, r) && Intact(w, r); }
  }

  /**
   Fresh references are exactly what the failure path needs. A request that passes the checks
   keeps the moved bytes under every fate that does not betray it if and only if its vault path is
   not that of a moved, active record: otherwise the exclusive copy fails and the clean-up removes
   the other's copy.
   */
  lemma FreshnessExactly(w: World, rq: Request)
    requires Inv(w) && Check(w, rq, ALL_WORK).None?
    ensures (forall fates: Fates :: !Betrayed(w, rq, fates) ==> Conserved(Quarantine(w, rq, fates).0))
       <==> forall r :: Answers(w, r) ==> w.items[r].vaultPath != rq.vaultPath
  {
    hide FormatFixed, Quarantine;
    if r :| Answers(w, r) && w.items[r].vaultPath == rq.vaultPath {
      TakenPathLoses(w, rq, r);
      assert !Betrayed(w, rq, ALL_WORK);
      assert !Conserved(Quarantine(w, rq, ALL_WORK).0);
    } else {
      forall fates: Fates | !Betrayed(w, rq, fates) ensures Conserved(Quarantine(w, rq, fates).0) {
        QuarantineNeverLoses(w, rq, fates);
        OthersStayIntact(w, Quarantine(w, rq, fates).0, rq);
      }
    }
  }

  lemma TakenPathLoses(w: World, rq: Request, r: string)
    requires Inv(w) && Check(w, rq, ALL_WORK).None? && Answers(w, r) && w.items[r].vaultPath == rq.vaultPath
    ensures Answers(Quarantine(w, rq, ALL_WORK).0, r) && !Intact(Quarantine(w, rq, ALL_WORK).0, r)
  {
    assert Intact(w, r);
    assert Quarantine(w, rq, ALL_WORK) == Discard(w, rq.vaultPath, Works, Refused(VaultUnwritable));
  }

  lemma OthersStayIntact(w: World, w': World, rq: Request)
    requires Inv(w) && TouchesOnly(w, w', rq) && KeptOrMoved(w, w', rq)
    requires forall r :: Answers(w, r) ==> w.items[r].vaultPath != rq.vaultPath
    ensures Conserved(w')
  {
    forall r | Answers(w', r) ensures Intact(w', r) {
      if r != rq.ref || w'.moved == w.moved {
        assert r in w.items;
        assert Answers(w, r) && Intact(w, r);
      }
    }
  }

  /** The request's own path, vault path and reference are all that `Quarantine` touches. */
  ghost predicate TouchesOnly(w: World, w': World, rq: Request) {
    && (forall p :: p != rq.path ==> (p in w'.site <==> p in w.site) && (p in w.site ==> w'.site[p] == w.site[p]))
    && (forall v :: v != rq.vaultPath ==> (v in w'.copies <==> v in w.copies) && (v in w.copies ==> w'.copies[v] == w.copies[v]))
    && (forall r :: r != rq.ref ==> (r in w'.items <==> r in w.items) && (r in w.items ==> w'.items[r] == w.items[r]))
    && (forall r :: r != rq.ref ==> (r in w'.moved <==> r in w.moved) && (r in w.moved ==> w'.moved[r] == w.moved[r]))
    && (rq.ref in w.items ==> w'.items == w.items && w'.moved == w.moved)
  }

  /** The file is where it was, unchanged, or it was moved: then its record is active and its copy intact. */
  ghost predicate KeptOrMoved(w: World, w': World, rq: Request) {
    if w'.moved == w.moved then w'.site == w.site && w'.inodes == w.inodes
    else
      && rq.path in w.site && w.site[rq.path].Hard? && w.site[rq.path].ino in w.inodes
      && rq.path !in w'.site && Answers(w', rq.ref) && Intact(w', rq.ref)
      && w'.moved[rq.ref] == Taken(rq.path, w.inodes[w.site[rq.path].ino])
      && forall p :: p in w'.site && w'.site[p].Hard? ==> w'.site[p].ino != w.site[rq.path].ino
  }

  lemma GoneEffect(w: World, rq: Request)
    requires SoundDisk(w) && Recorded(w) && Movable(w, rq) && Insertable(w, rq)
    ensures var file := w.inodes[w.site[rq.path].ino];
      CopyReady(w, rq, file) ==>
        TouchesOnly(w, Gone(Inserted(w, rq, file), rq, file), rq) && KeptOrMoved(w, Gone(Inserted(w, rq, file), rq, file), rq)
    ensures Gone(Inserted(w, rq, w.inodes[w.site[rq.path].ino]), rq, w.inodes[w.site[rq.path].ino]).moved != w.moved
  {
    hide FormatFixed, ParseUtc, FormatPerms;
    var file := w.inodes[w.site[rq.path].ino];
    var w1 := Inserted(w, rq, file);
    var w' := Gone(w1, rq, file);
    assert OtherNamesOf(w1, rq.path) == OtherNamesOf(w, rq.path) == {};
    assert rq.ref in w'.moved && rq.ref !in w.moved;
    forall p | p in w'.site && w'.site[p].Hard? ensures w'.site[p].ino != w.site[rq.path].ino {
      assert p !in OtherNamesOf(w, rq.path);
    }
  }

  /** The path names a plain file that has no other name. */
  ghost predicate Movable(w: World, rq: Request) {
    && rq.path in w.site && w.site[rq.path].Hard? && w.site[rq.path].ino in w.inodes
    && OtherNamesOf(w, rq.path) == {}
  }

  lemma CheckedIsMovable(w: World, rq: Request, fates: Fates)
    requires Check(w, rq, fates).None?
    ensures Movable(w, rq) && Resolve(w, rq.path) == Some(w.inodes[w.site[rq.path].ino])
  {
  }

  lemma KeptTrivially(w: World, w': World, rq: Request)
    requires w'.site == w.site && w'.inodes == w.inodes && w'.moved == w.moved && w'.items == w.items
    requires forall v :: v != rq.vaultPath ==> (v in w'.copies <==> v in w.copies) && (v in w.copies ==> w'.copies[v] == w.copies[v])
    ensures KeptOrMoved(w, w', rq) && TouchesOnly(w, w', rq) && TakesOnly(w, w', rq)
  {
  }

  /** Discarding touches one copy and never reports success on its own. */
  lemma DiscardEffect(w: World, vaultPath: string, fate: Fate, otherwise: Outcome)
    ensures var (w', o) := Discard(w, vaultPath, fate, otherwise);
      && w'.site == w.site && w'.inodes == w.inodes && w'.items == w.items && w'.moved == w.moved
      && (w'.copies == w.copies || w'.copies == w.copies - {vaultPath}) && o in {otherwise, Died}
  {
  }

  /** Nothing of the site has changed, and of the rest only the request's own copy and record. */
  ghost predicate SiteUntouched(w: World, w': World, rq: Request) {
    && w'.site == w.site && w'.inodes == w.inodes && w'.moved == w.moved
    && (w'.copies == w.copies || w'.copies == w.copies - {rq.vaultPath})
    && (w'.items == w.items || (rq.ref in w'.items && rq.ref !in w.items && w'.items == w.items[rq.ref := w'.items[rq.ref]]))
  }

  /** What is remembered as moved is the file the path led to, and only under the request's new reference. */
  ghost predicate TakesOnly(w: World, w': World, rq: Request) {
    w'.moved == w.moved
    || (Movable(w, rq) && rq.ref !in w.items
        && w'.moved == w.moved[rq.ref := Taken(rq.path, w.inodes[w.site[rq.path].ino])])
  }

  lemma GiveUpUntouched(w: World, w1: World, rq: Request, file: FileState, fates: Fates)
    requires rq.ref !in w.items && w1 == Inserted(w, rq, file)
    ensures var (w', o) := GiveUp(w1, rq, fates); SiteUntouched(w, w', rq) && o != Ok
  {
    hide FormatFixed, ParseUtc, OctalValue;
    var w2 := SetStatus(w1, rq.ref, Purged);
    DiscardEffect(w1, rq.vaultPath, fates(RemoveCopy), Refused(NotRemoved));
    DiscardEffect(w2, rq.vaultPath, fates(RemoveCopy), Refused(NotRemoved));
  }

  lemma NotRecordedEffect(w: World, rq: Request, file: FileState, fates: Fates)
    requires !Insertable(w, rq) || !fates(InsertItem).Works?
    ensures var (w', o) := Record(w, rq, file, fates); SiteUntouched(w, w', rq) && o != Ok
  {
    hide FormatFixed, ParseUtc, FormatPerms;
    DiscardEffect(w, rq.vaultPath, fates(RemoveCopy), Refused(NotRecorded));
    if Insertable(w, rq) {
      DiscardEffect(Inserted(w, rq, file), rq.vaultPath, fates(RemoveCopy), Refused(NotRecorded));
    }
  }

  lemma UntouchedTouchesOnly(w: World, w': World, rq: Request)
    requires SiteUntouched(w, w', rq)
    ensures TouchesOnly(w, w', rq) && KeptOrMoved(w, w', rq) && TakesOnly(w, w', rq)
  {
  }

  /** What giving up leaves of a record that is in the table. */
  lemma GiveUpEffect(g: World, rq: Request, fates: Fates)
    requires IsActive(g, rq.ref)
    ensures var (w', o) := GiveUp(g, rq, fates);
      && w'.site == g.site && w'.inodes == g.inodes && w'.moved == g.moved && o != Ok
      && (w'.copies == g.copies || w'.copies == g.copies - {rq.vaultPath})
      && (w'.items == g.items || w'.items == g.items[rq.ref := g.items[rq.ref].(status := Purged)])
      && (!GivenUp(fates) ==> w' == g)
      && (GivenUp(fates) ==> !IsActive(w', rq.ref) || rq.vaultPath !in w'.copies)
  {
    hide FormatFixed, ParseUtc;
  }

  lemma TouchesMore(w: World, g: World, w': World, rq: Request)
    requires TouchesOnly(w, g, rq) && TakesOnly(w, g, rq) && rq.ref !in w.items && rq.ref in g.items
    requires w'.site == g.site && w'.moved == g.moved
    requires w'.copies == g.copies || w'.copies == g.copies - {rq.vaultPath}
    requires w'.items == g.items || w'.items == g.items[rq.ref := g.items[rq.ref].(status := Purged)]
    ensures TouchesOnly(w, w', rq) && TakesOnly(w, w', rq)
  {
  }

  /** Giving up on a file that is gone: it keeps an intact copy under an active record unless the giving up takes effect. */
  lemma GiveUpGone(w: World, rq: Request, fates: Fates)
    requires SoundDisk(w) && Recorded(w) && Movable(w, rq) && Insertable(w, rq)
    requires CopyReady(w, rq, w.inodes[w.site[rq.path].ino])
    ensures var file := w.inodes[w.site[rq.path].ino];
      var (w', o) := GiveUp(Gone(Inserted(w, rq, file), rq, file), rq, fates);
      TouchesOnly(w, w', rq) && TakesOnly(w, w', rq) && o != Ok && (KeptOrMoved(w, w', rq) <==> !GivenUp(fates))
  {
    hide FormatFixed, ParseUtc, FormatPerms, GiveUp, GivenUp, TouchesOnly;
    var file := w.inodes[w.site[rq.path].ino];
    var g := Gone(Inserted(w, rq, file), rq, file);
    GoneEffect(w, rq);
    GiveUpEffect(g, rq, fates);
    TouchesMore(w, g, GiveUp(g, rq, fates).0, rq);
  }

  lemma RemoveEffect(w: World, rq: Request, fates: Fates)
    requires SoundDisk(w) && Recorded(w) && Movable(w, rq) && Insertable(w, rq)
    requires CopyReady(w, rq, w.inodes[w.site[rq.path].ino])
    ensures var file := w.inodes[w.site[rq.path].ino];
      var (w', o) := Remove(Inserted(w, rq, file), rq, file, fates);
      && TouchesOnly(w, w', rq) && TakesOnly(w, w', rq) && (o == Ok ==> w'.moved != w.moved)
      && (KeptOrMoved(w, w', rq) <==> !(FalseReport(fates) && GivenUp(fates)))
  {
    hide FormatFixed, NewItem, GiveUp, TouchesOnly, KeptOrMoved, GivenUp;
    var file := w.inodes[w.site[rq.path].ino];
    var w1 := Inserted(w, rq, file);
    GoneEffect(w, rq);
    if Failed(fates(RemoveOriginal)) && Removed(fates) {
      GiveUpGone(w, rq, fates);
    } else if !Removed(fates) {
      GiveUpUntouched(w, w1, rq, file, fates);
      UntouchedTouchesOnly(w, GiveUp(w1, rq, fates).0, rq);
      UntouchedTouchesOnly(w, w1, rq);
    }
  }

  lemma RecordEffect(w: World, rq: Request, file: FileState, fates: Fates)
    requires SoundDisk(w) && Recorded(w) && Movable(w, rq)
    requires file == w.inodes[w.site[rq.path].ino] && CopyReady(w, rq, file)
    ensures var (w', o) := Record(w, rq, file, fates);
      && TouchesOnly(w, w', rq) && TakesOnly(w, w', rq) && (o == Ok ==> w'.moved != w.moved)
      && (KeptOrMoved(w, w', rq) <==> !(Insertable(w, rq) && fates(InsertItem).Works? && FalseReport(fates) && GivenUp(fates)))
  {
    hide FormatFixed, NewItem, Remove, TouchesOnly, KeptOrMoved, GivenUp, FalseReport, TakesOnly;
    if Insertable(w, rq) && fates(InsertItem).Works? {
      RemoveEffect(w, rq, fates);
      assert Record(w, rq, file, fates) == Remove(Inserted(w, rq, file), rq, file, fates);
    } else {
      NotRecordedEffect(w, rq, file, fates);
      UntouchedTouchesOnly(w, Record(w, rq, file, fates).0, rq);
    }
  }

  lemma TouchesCompose(w: World, content: Bytes, w': World, rq: Request)
    requires TouchesOnly(PutCopy(w, rq.vaultPath, content), w', rq) && TakesOnly(PutCopy(w, rq.vaultPath, content), w', rq)
    ensures TouchesOnly(w, w', rq) && TakesOnly(w, w', rq)
    ensures KeptOrMoved(PutCopy(w, rq.vaultPath, content), w', rq) <==> KeptOrMoved(w, w', rq)
  {
    assert OtherNamesOfSame(w, PutCopy(w, rq.vaultPath, content), rq.path);
  }

  predicate OtherNamesOfSame(w: World, w1: World, path: string) {
    path in w.site && path in w1.site ==> OtherNamesOf(w1, path) == OtherNamesOf(w, path)
  }

  /**
   What one quarantine may do, at every point where it may stop: it leaves the file as it was, or
   it has moved it, with an intact copy under an active record and no name left for its content.
   That is so exactly when it is not betrayed: a removal that takes effect and reports failure
   makes the program give up the record or the only copy. Success means moved, and every other
   name, copy and record is as before in any case.
   */
  lemma QuarantineNeverLoses(w: World, rq: Request, fates: Fates)
    requires SoundDisk(w) && Recorded(w)
    ensures var (w', o) := Quarantine(w, rq, fates);
      && TouchesOnly(w, w', rq) && TakesOnly(w, w', rq) && (o == Ok ==> w'.moved != w.moved)
      && (KeptOrMoved(w, w', rq) <==> !Betrayed(w, rq, fates))
  {
    hide FormatFixed, ParseUtc, OctalValue, Record, TouchesOnly, KeptOrMoved, TakesOnly;
    var w' := Quarantine(w, rq, fates).0;
    if Check(w, rq, fates).None? {
      CheckedIsMovable(w, rq, fates);
      var file := Resolve(w, rq.path).value;
      var copy := CopyVerify(file.content, rq.vaultPath in w.copies, fates(CopyIn));
      var w1 := if copy.left.Some? then PutCopy(w, rq.vaultPath, copy.left.value) else w;
      if copy.reported == Some(ShaOf(file.content)) && !fates(CopyIn).Dies? && !fates(ChmodCopy).Dies? {
        assert OtherNamesOf(w1, rq.path) == OtherNamesOf(w, rq.path);
        RecordEffect(w1, rq, file, fates);
        assert Quarantine(w, rq, fates) == Record(w1, rq, file, fates);
        assert Insertable(w1, rq) <==> Insertable(w, rq);
        TouchesCompose(w, copy.left.value, w', rq);
      } else {
        DiscardEffect(w1, rq.vaultPath, fates(RemoveCopy), Refused(VaultUnwritable));
        KeptTrivially(w, w', rq);
      }
    } else {
      KeptTrivially(w, w', rq);
    }
  }

  /** The one call that betrays: its effect and its report disagree. */
  const FALSE_REPORT: Fates := (c: Call) => if c == RemoveOriginal then Fails(1) else Works

  /** Where a quarantine would have succeeded, that call leaves neither the file nor the copy, and closes the record. */
  lemma FalseReportLoses(w: World, rq: Request)
    requires SoundDisk(w) && Recorded(w) && Quarantine(w, rq, ALL_WORK).1 == Ok
    ensures var (w', o) := Quarantine(w, rq, FALSE_REPORT);
      && o == Refused(NotRemoved) && rq.path !in w'.site && w.site[rq.path].ino !in w'.inodes
      && rq.vaultPath !in w'.copies && rq.ref in w'.items && w'.items[rq.ref].status == Purged
  {
    hide Quarantine, NewItem, Check, ReachesRemoval;
    FalseReportReaches(w, rq);
    AtRemoval(w, rq, FALSE_REPORT);
    var file := Resolve(w, rq.path).value;
    assert OtherNamesOf(Inserted(PutCopy(w, rq.vaultPath, file.content), rq, file), rq.path) == OtherNamesOf(w, rq.path);
  }

  /** A quarantine that reaches the removal is the removal, on what the copy and the record have left. */
  lemma AtRemoval(w: World, rq: Request, fates: Fates)
    requires ReachesRemoval(w, rq, fates)
    ensures var file := Resolve(w, rq.path).value;
      Quarantine(w, rq, fates) == Remove(Inserted(PutCopy(w, rq.vaultPath, file.content), rq, file), rq, file, fates)
  {
    CheckedIsMovable(w, rq, fates);
    hide Check, Remove, NewItem, Movable;
    var file := Resolve(w, rq.path).value;
    var w1 := PutCopy(w, rq.vaultPath, file.content);
    assert Insertable(w1, rq);
    assert Quarantine(w, rq, fates) == Record(w1, rq, file, fates);
  }

  lemma FalseReportReaches(w: World, rq: Request)
    requires SoundDisk(w) && Recorded(w) && Quarantine(w, rq, ALL_WORK).1 == Ok
    ensures Movable(w, rq) && Resolve(w, rq.path) == Some(w.inodes[w.site[rq.path].ino]) && ReachesRemoval(w, rq, FALSE_REPORT)
  {
    hide Quarantine, WithinAny, ContainedByAny;
    QuarantineSucceedsExactly(w, rq);
    CheckPasses(w, rq);
  }

  lemma CheckPasses(w: World, rq: Request)
    requires Movable(w, rq) && rq.expected in {NoSha, ShaOf(w.inodes[w.site[rq.path].ino].content)}
    requires Expressible(rq.path) && (rq.roots != [] ==> ContainedByAny(rq.roots, rq.path))
    ensures Check(w, rq, FALSE_REPORT).None?
  {
    hide WithinAny, ContainedByAny, Expressible;
    WithinAnyMeans(rq.path, rq.roots);
  }

  /**
   With every call working, a quarantine succeeds exactly for a plain file without other names,
   with the expected digest, a path that can be expressed and lies within the roots, and a free
   reference and vault path.
   */
  lemma QuarantineSucceedsExactly(w: World, rq: Request)
    requires SoundDisk(w) && Recorded(w)
    ensures Quarantine(w, rq, ALL_WORK).1 == Ok <==>
      && Movable(w, rq) && Insertable(w, rq) && rq.vaultPath !in w.copies
      && rq.expected in {NoSha, ShaOf(w.inodes[w.site[rq.path].ino].content)}
      && Expressible(rq.path) && (rq.roots != [] ==> ContainedByAny(rq.roots, rq.path))
  {
    hide FormatFixed, FormatPerms, WithinAny, ContainedByAny, Unlink;
    WithinAnyMeans(rq.path, rq.roots);
    if Check(w, rq, ALL_WORK).None? {
      CheckedIsMovable(w, rq, ALL_WORK);
      var file := Resolve(w, rq.path).value;
      var w1 := PutCopy(w, rq.vaultPath, file.content);
      if rq.vaultPath !in w.copies {
        assert Quarantine(w, rq, ALL_WORK) == Record(w1, rq, file, ALL_WORK);
        assert Insertable(w1, rq) <==> Insertable(w, rq);
      }
    }
  }

  /** When a digest was expected, nothing else is ever moved: the file is hashed again before it is touched. */
  lemma OnlyExpectedMoves(w: World, rq: Request, fates: Fates)
    requires SoundDisk(w) && Recorded(w) && rq.expected != NoSha
    ensures var w' := Quarantine(w, rq, fates).0;
      w'.moved != w.moved ==>
        rq.ref in w'.moved && w'.moved[rq.ref].path == rq.path && ShaOf(w'.moved[rq.ref].file.content) == rq.expected
  {
    hide FormatFixed, ParseUtc, OctalValue, Record, Discard, KeptOrMoved;
    var w' := Quarantine(w, rq, fates).0;
    QuarantineNeverLoses(w, rq, fates);
    if w'.moved != w.moved {
      assert Check(w, rq, fates).None?;
      assert ShaOf(Resolve(w, rq.path).value.content) == rq.expected;
    }
  }

  /**
   Whatever is configured as roots bounds what may be moved, under every fate: a file is moved only
   from a path that some root contains, element by element once both are cleaned, or when there are
   no roots at all.
   */
  lemma OnlyWithinRoots(w: World, rq: Request, fates: Fates)
    ensures Quarantine(w, rq, fates).0.moved != w.moved ==>
      rq.roots == [] || ContainedByAny(rq.roots, rq.path)
  {
    hide Record, Discard, WithinAny, ContainedByAny;
    WithinAnyMeans(rq.path, rq.roots);
  }

  /** Betrayed or not, the site stays a site, and everything moved has a record. */
  lemma QuarantineStaysSound(w: World, rq: Request, fates: Fates)
    requires SoundDisk(w) && Recorded(w)
    ensures var w' := Quarantine(w, rq, fates).0; SoundDisk(w') && Recorded(w')
  {
    hide FormatFixed, ParseUtc, FormatPerms, Record;
    if Check(w, rq, fates).None? {
      var file := Resolve(w, rq.path).value;
      var copy := CopyVerify(file.content, rq.vaultPath in w.copies, fates(CopyIn));
      var w1 := if copy.left.Some? then PutCopy(w, rq.vaultPath, copy.left.value) else w;
      RecordStaysSound(w1, rq, file, fates);
    }
  }

  lemma UnlinkStaysSound(w: World, path: string)
    requires SoundDisk(w)
    ensures SoundDisk(Unlink(w, path))
  {
    var w' := Unlink(w, path);
    forall p | p in w'.site && w'.site[p].Hard? ensures w'.site[p].ino in w'.inodes {
      if path in w.site && w.site[path] == w.site[p] { assert p in OtherNamesOf(w, path); }
    }
  }

  ghost predicate SameDisk(w: World, u: World) {
    w.site == u.site && w.inodes == u.inodes && w.nextIno == u.nextIno
  }

  lemma RecordStaysSound(w: World, rq: Request, file: FileState, fates: Fates)
    requires SoundDisk(w) && Recorded(w)
    ensures var w' := Record(w, rq, file, fates).0; SoundDisk(w') && Recorded(w')
  {
    hide FormatFixed, ParseUtc, FormatPerms, Record;
    UnlinkStaysSound(w, rq.path);
    RecordDisk(w, rq, file, fates);
    RecordRecords(w, rq, file, fates);
  }

  /** Only the status of the request's record changes. */
  ghost predicate SameRecords(w: World, w': World, rq: Request)
    requires rq.ref in w.items
  {
    w'.items == w.items || w'.items == w.items[rq.ref := w.items[rq.ref].(status := Purged)]
  }

  lemma GiveUpSound(w: World, rq: Request, fates: Fates)
    requires rq.ref in w.items
    ensures var w' := GiveUp(w, rq, fates).0; SameDisk(w', w) && SameRecords(w, w', rq) && w'.moved == w.moved
  {
    DiscardEffect(SetStatus(w, rq.ref, Purged), rq.vaultPath, fates(RemoveCopy), Refused(NotRemoved));
    DiscardEffect(w, rq.vaultPath, fates(RemoveCopy), Refused(NotRemoved));
  }

  lemma RemoveSound(w: World, rq: Request, file: FileState, fates: Fates)
    requires rq.ref in w.items
    ensures var w' := Remove(w, rq, file, fates).0;
      && (SameDisk(w', w) || SameDisk(w', Unlink(w, rq.path))) && SameRecords(w, w', rq)
      && (w'.moved == w.moved || w'.moved == w.moved[rq.ref := Taken(rq.path, file)])
  {
    hide GiveUp;
    GiveUpSound(w, rq, fates);
    GiveUpSound(Gone(w, rq, file), rq, fates);
  }

  lemma UnlinkAlike(w: World, u: World, path: string)
    requires SameDisk(w, u)
    ensures SameDisk(Unlink(w, path), Unlink(u, path))
  {
    hide OtherNamesOf;
    if path in w.site { OtherNamesAlike(w, u, path); }
  }

  lemma OtherNamesAlike(w: World, u: World, path: string)
    requires w.site == u.site && path in w.site
    ensures OtherNamesOf(w, path) == OtherNamesOf(u, path)
  {
  }

  lemma RecordDisk(w: World, rq: Request, file: FileState, fates: Fates)
    ensures var w' := Record(w, rq, file, fates).0; SameDisk(w', w) || SameDisk(w', Unlink(w, rq.path))
  {
    hide NewItem, Remove, Unlink;
    UnlinkAlike(w, Inserted(w, rq, file), rq.path);
    DiscardEffect(w, rq.vaultPath, fates(RemoveCopy), Refused(NotRecorded));
    DiscardEffect(Inserted(w, rq, file), rq.vaultPath, fates(RemoveCopy), Refused(NotRecorded));
    if Insertable(w, rq) { RemoveSound(Inserted(w, rq, file), rq, file, fates); }
  }

  lemma InsertedRecorded(w: World, rq: Request, file: FileState)
    requires Recorded(w) && rq.ref !in w.items
    ensures Recorded(Inserted(w, rq, file))
  {
    hide FormatFixed, ParseUtc, FormatPerms;
    StoredRoundTrip(rq.retention);
  }

  lemma RecordedAlike(w: World, w': World, rq: Request, file: FileState)
    requires Recorded(w) && rq.ref in w.items && SameRecords(w, w', rq)
    requires w'.moved == w.moved || w'.moved == w.moved[rq.ref := Taken(rq.path, file)]
    ensures Recorded(w')
  {
    hide TimeFromNull, NullTime;
  }

  lemma RecordRecords(w: World, rq: Request, file: FileState, fates: Fates)
    requires Recorded(w)
    ensures Recorded(Record(w, rq, file, fates).0)
  {
    hide Recorded, Remove, NewItem;
    var w', w1 := Record(w, rq, file, fates).0, Inserted(w, rq, file);
    if Insertable(w, rq) && Effective(fates(InsertItem)) {
      InsertedRecorded(w, rq, file);
      RemoveSound(w1, rq, file, fates);
      RecordedAlike(w1, w', rq, file);
    } else {
      assert w'.items == w.items && w'.moved == w.moved;
      RecordedSame(w, w');
    }
  }

  lemma RecordedSame(w: World, w': World)
    requires Recorded(w) && w'.items == w.items && w'.moved == w.moved
    ensures Recorded(w')
  {
    hide TimeFromNull, NullTime;
  }

  // ---- Restore ----

  lemma CreateKeeps(w: World, path: string, content: Bytes, now: Time)
    requires Inv(w) && path !in w.site
    ensures Inv(Create(w, path, content, now))
  {
    var w' := Create(w, path, content, now);
    forall r | Answers(w', r) ensures Intact(w', r) { assert Answers(w, r) && Intact(w, r); }
  }

  lemma ReinodeKeeps(w: World, ino: nat, file: FileState)
    requires Inv(w) && ino in w.inodes
    ensures Inv(SetFile(w, ino, file))
  {
    var w' := SetFile(w, ino, file);
    forall r | Answers(w', r) ensures Intact(w', r) { assert Answers(w, r) && Intact(w, r); }
  }

  lemma CloseAllKeeps(w: World, ref: string, s: Status, fate: Fate, fates: Fates, left: Outcome)
    requires Inv(w) && IsActive(w, ref) && s != Active
    ensures Inv(Close(w, ref, s, fate, fates, left).0)
  {
    if Effective(fate) {
      CloseKeeps(w, ref, s);
      DiscardKeeps(SetStatus(w, ref, s), w.items[ref].vaultPath, fates(DropCopy), if Failed(fates(DropCopy)) then left else Ok);
    }
  }

  lemma FinishTimeKeeps(w: World, ref: string, ino: nat, fates: Fates)
    requires Inv(w) && IsActive(w, ref) && ino in w.inodes
    ensures Inv(FinishTime(w, ref, ino, fates).0)
  {
    hide FormatFixed, ParseUtc, Close;
    var mtime := TimeFromNull(w.items[ref].mtime);
    CloseAllKeeps(w, ref, Restored, fates(MarkRestored), fates, Ok);
    if InRange(mtime) {
      var file := w.inodes[ino].(mtime := mtime);
      ReinodeKeeps(w, ino, file);
      CloseAllKeeps(SetFile(w, ino, file), ref, Restored, fates(MarkRestored), fates, Ok);
    }
  }

  lemma FinishKeeps(w: World, ref: string, ino: nat, fates: Fates)
    requires Inv(w) && IsActive(w, ref) && ino in w.inodes
    ensures Inv(Finish(w, ref, ino, fates).0)
  {
    hide FormatFixed, ParseUtc, OctalValue;
    var perms := ParsePerms(w.items[ref].perms);
    FinishTimeKeeps(w, ref, ino, fates);
    if perms.Some? {
      var file := w.inodes[ino].(perms := perms.value);
      ReinodeKeeps(w, ino, file);
      FinishTimeKeeps(SetFile(w, ino, file), ref, ino, fates);
    }
  }

  /** Every run of `Restore` keeps the invariant. */
  lemma RestoreKeeps(w: World, ref: string, now: Time, fates: Fates)
    requires Inv(w)
    ensures Inv(Restore(w, ref, now, fates).0)
  {
    if CheckRestore(w, ref, fates).None? {
      var item := w.items[ref];
      var copy := CopyVerify(w.copies[item.vaultPath], item.original in w.site, fates(CopyOut));
      if copy.left.Some? {
        CreateKeeps(w, item.original, copy.left.value, now);
        SettleKeeps(Create(w, item.original, copy.left.value, now), ref, w.nextIno, copy.reported, fates);
      } else {
        SettleKeeps(w, ref, w.nextIno, copy.reported, fates);
      }
    }
  }

  lemma SettleKeeps(w: World, ref: string, ino: nat, reported: Option<Sha>, fates: Fates)
    requires Inv(w) && IsActive(w, ref) && (reported.Some? ==> ino in w.inodes)
    ensures Inv(Settle(w, ref, ino, reported, fates).0)
  {
    hide FormatFixed, ParseUtc, OctalValue;
    UnlinkKeeps(w, w.items[ref].original);
    if reported.Some? { FinishKeeps(w, ref, ino, fates); }
  }

  /** The file stands at the path with these bytes. */
  ghost predicate HasContent(w: World, path: string, content: Bytes) {
    Resolve(w, path).Some? && Resolve(w, path).value.content == content
  }

  /** Only the metadata of one file and the status of one record may differ, besides copies. */
  ghost predicate OnlyCloses(w: World, w': World, ref: string, s: Status, ino: nat)
    requires ref in w.items && ino in w.inodes
  {
    && w'.site == w.site && w'.moved == w.moved
    && ino in w'.inodes && w'.inodes[ino].content == w.inodes[ino].content
    && (w'.items == w.items || w'.items == w.items[ref := w.items[ref].(status := s)])
  }

  lemma FinishEffect(w: World, ref: string, ino: nat, fates: Fates)
    requires ref in w.items && ino in w.inodes
    ensures OnlyCloses(w, Finish(w, ref, ino, fates).0, ref, Restored, ino)
  {
    FinishTimeEffect(w, ref, ino, fates);
    var perms := ParsePerms(w.items[ref].perms);
    if perms.Some? {
      FinishTimeEffect(SetFile(w, ino, w.inodes[ino].(perms := perms.value)), ref, ino, fates);
    }
  }

  lemma FinishTimeEffect(w: World, ref: string, ino: nat, fates: Fates)
    requires ref in w.items && ino in w.inodes
    ensures OnlyCloses(w, FinishTime(w, ref, ino, fates).0, ref, Restored, ino)
  {
    var mtime := TimeFromNull(w.items[ref].mtime);
    CloseEffect(w, ref, Restored, fates(MarkRestored), fates, Ok);
    if InRange(mtime) {
      CloseEffect(SetFile(w, ino, w.inodes[ino].(mtime := mtime)), ref, Restored, fates(MarkRestored), fates, Ok);
    }
  }

  lemma CloseEffect(w: World, ref: string, s: Status, fate: Fate, fates: Fates, left: Outcome)
    requires ref in w.items
    ensures var w' := Close(w, ref, s, fate, fates, left).0;
      && w'.site == w.site && w'.moved == w.moved && w'.inodes == w.inodes
      && (w'.items == w.items || w'.items == w.items[ref := w.items[ref].(status := s)])
  {
    DiscardEffect(SetStatus(w, ref, s), w.items[ref].vaultPath, fates(DropCopy), if Failed(fates(DropCopy)) then left else Ok);
  }

  /** A restore changes no other record, and its own only from active to restored, once the bytes are back. */
  ghost predicate RestoreSummary(w: World, w': World, ref: string) {
    && w'.moved == w.moved
    && (w'.items == w.items
        || (IsActive(w, ref) && w'.items == w.items[ref := w.items[ref].(status := Restored)]
            && w.items[ref].sha.ShaOf? && HasContent(w', w.items[ref].original, w.items[ref].sha.content)))
  }

  lemma RestoreEffect(w: World, ref: string, now: Time, fates: Fates)
    ensures RestoreSummary(w, Restore(w, ref, now, fates).0, ref)
  {
    hide FormatFixed, ParseUtc, OctalValue;
    if CheckRestore(w, ref, fates).None? {
      var item := w.items[ref];
      var copy := CopyVerify(w.copies[item.vaultPath], item.original in w.site, fates(CopyOut));
      if copy.reported.Some? && copy.reported.value == item.sha && !fates(CopyOut).Dies? {
        var w1 := Create(w, item.original, copy.left.value, now);
        FinishEffect(w1, ref, w.nextIno, fates);
        assert Restore(w, ref, now, fates) == Finish(w1, ref, w.nextIno, fates);
      }
    }
  }

  /**
   The bytes are never nowhere: a record that `Restore` closes has its bytes, the very ones that
   were recorded, back at the original path.
   */
  lemma RestoreGivesBack(w: World, ref: string, now: Time, fates: Fates)
    requires Inv(w) && IsActive(w, ref)
    ensures var w' := Restore(w, ref, now, fates).0;
      && ref in w'.items && w'.items[ref].status in {Active, Restored}
      && (w'.items[ref].status == Restored ==>
            w.items[ref].sha.ShaOf? && HasContent(w', w.items[ref].original, w.items[ref].sha.content))
  {
    RestoreEffect(w, ref, now, fates);
  }

  /**
   Restoring succeeds exactly when the original path is free, in any state a run can reach, and
   gives back the path, the bytes, the nine permission bits and the time of what was moved.
   */
  lemma RestoreSucceedsExactly(w: World, ref: string, now: Time)
    requires Inv(w) && Answers(w, ref)
    ensures var (w', o) := Restore(w, ref, now, ALL_WORK);
      && (o == Ok <==> w.moved[ref].path !in w.site)
      && (o == Ok ==> BackAgain(w, w', ref))
  {
    assert Intact(w, ref);
    if w.moved[ref].path in w.site {
      OccupiedRefuses(w, ref, now);
    } else {
      FreeRestores(w, ref, now);
    }
  }

  lemma ReachesCopyOut(w: World, ref: string, now: Time)
    requires Answers(w, ref) && Intact(w, ref) && w.moved[ref].path !in w.site
    ensures var taken := w.moved[ref];
      Restore(w, ref, now, ALL_WORK)
        == Finish(Create(w, taken.path, taken.file.content, now), ref, w.nextIno, ALL_WORK)
  {
    assert CheckRestore(w, ref, ALL_WORK).None?;
  }

  lemma FreeRestores(w: World, ref: string, now: Time)
    requires Answers(w, ref) && Intact(w, ref) && w.moved[ref].path !in w.site
    ensures Restore(w, ref, now, ALL_WORK).1 == Ok && BackAgain(w, Restore(w, ref, now, ALL_WORK).0, ref)
  {
    var taken := w.moved[ref];
    ReachesCopyOut(w, ref, now);
    FinishAllWork(Create(w, taken.path, taken.file.content, now), ref, w.nextIno, taken.file);
  }

  lemma OccupiedRefuses(w: World, ref: string, now: Time)
    requires IsActive(w, ref) && w.items[ref].original in w.site
    ensures Restore(w, ref, now, ALL_WORK).1 != Ok
  {
  }

  /** The moved file stands at its path again, its record is closed and its copy gone; nothing else differs. */
  ghost predicate BackAgain(w: World, w': World, ref: string)
    requires Answers(w, ref)
  {
    var taken := w.moved[ref];
    && Resolve(w', taken.path).Some?
    && Resolve(w', taken.path).value.content == taken.file.content
    && Resolve(w', taken.path).value.perms == taken.file.perms % 512
    && (taken.file.mtime != ZERO ==> Resolve(w', taken.path).value.mtime == taken.file.mtime)
    && w'.site == w.site[taken.path := Hard(w.nextIno)]
    && w'.items == w.items[ref := w.items[ref].(status := Restored)]
    && w'.copies == w.copies - {w.items[ref].vaultPath}
  }

  lemma FinishAllWork(w: World, ref: string, ino: nat, file: FileState)
    requires ref in w.items && ino in w.inodes
    requires w.items[ref].perms == FormatPerms(file.perms) && w.items[ref].mtime == NullTime(file.mtime)
    ensures var (w', o) := Finish(w, ref, ino, ALL_WORK);
      && o == Ok && w'.site == w.site && w'.copies == w.copies - {w.items[ref].vaultPath}
      && w'.items == w.items[ref := w.items[ref].(status := Restored)]
      && ino in w'.inodes && w'.inodes[ino].content == w.inodes[ino].content
      && w'.inodes[ino].perms == file.perms % 512
      && (file.mtime != ZERO ==> w'.inodes[ino].mtime == file.mtime)
  {
    PermsRoundTrip(file.perms);
    StoredRoundTrip(file.mtime);
    var w1 := SetFile(w, ino, w.inodes[ino].(perms := file.perms % 512));
    assert Finish(w, ref, ino, ALL_WORK) == FinishTime(w1, ref, ino, ALL_WORK);
  }

  /** Quarantine, then restore: the file is back, in content, nine permission bits and time. */
  lemma QuarantineThenRestore(w: World, rq: Request, fates: Fates, now: Time)
    requires Inv(w) && FreshPath(w, rq.vaultPath) && Quarantine(w, rq, fates).1 == Ok
    ensures var before, w1 := Resolve(w, rq.path), Quarantine(w, rq, fates).0;
      var (w2, o) := Restore(w1, rq.ref, now, ALL_WORK);
      && before.Some? && o == Ok && Resolve(w2, rq.path).Some?
      && var after := Resolve(w2, rq.path).value;
      && after.content == before.value.content && after.perms == before.value.perms % 512
      && (before.value.mtime != ZERO ==> after.mtime == before.value.mtime)
  {
    hide Quarantine, Restore, Betrayed, FormatFixed, ParseUtc, FormatPerms;
    var w1 := Quarantine(w, rq, fates).0;
    SuccessIsNotBetrayed(w, rq, fates);
    QuarantineKeeps(w, rq, fates);
    QuarantineNeverLoses(w, rq, fates);
    RestoreSucceedsExactly(w1, rq.ref, now);
  }

  lemma SuccessIsNotBetrayed(w: World, rq: Request, fates: Fates)
    requires Quarantine(w, rq, fates).1 == Ok
    ensures !Betrayed(w, rq, fates)
  {
    if Betrayed(w, rq, fates) {
      hide Quarantine, GiveUp, Unlink, NewItem;
      AtRemoval(w, rq, fates);
      var file := Resolve(w, rq.path).value;
      GiveUpEffect(Gone(Inserted(PutCopy(w, rq.vaultPath, file.content), rq, file), rq, file), rq, fates);
    }
  }

  /** The name is there, and is what it was. */
  predicate Spared(w: World, w': World, path: string)
    requires path in w.site
  {
    path in w'.site && w'.site[path] == w.site[path]
  }

  /**
   "It overwrites nothing", whatever fails and wherever it dies: a name that occupies the original
   path survives a restore if and only if some check stops the restore, or it dies in the copy, or
   the clean-up of the failed copy takes no effect. Otherwise the exclusive create fails on the
   name and the clean-up removes it. A file that is seen stops the restore before it touches anything.
   */
  lemma RestoreOverwritesExactly(w: World, ref: string, now: Time, fates: Fates)
    requires ref in w.items && w.items[ref].original in w.site
    ensures var w', path := Restore(w, ref, now, fates).0, w.items[ref].original;
      && (Spared(w, w', path)
          <==> !(CheckRestore(w, ref, fates).None? && !fates(CopyOut).Dies? && Effective(fates(RemovePartial))))
      && (fates(StatOriginal).Works? && Exists(w, path) ==> w' == w)
  {
    hide FormatFixed, ParseUtc, FormatPerms, Finish;
    if CheckRestore(w, ref, fates).None? && !fates(CopyOut).Dies? {
      assert Restore(w, ref, now, fates) == Settle(w, ref, w.nextIno, None, fates);
    }
  }

  /**
   The same for a record whose copy is intact, when every call but the Stat works: what occupies
   the path survives exactly when the Stat answers and finds it. It does not find a symbolic link
   that leads nowhere.
   */
  lemma SeenIsSparedExactly(w: World, ref: string, now: Time, fates: Fates)
    requires Inv(w) && Answers(w, ref) && w.moved[ref].path in w.site
    requires forall c: Call :: c != StatOriginal ==> fates(c) == Works
    requires fates(StatOriginal).Works? || Failed(fates(StatOriginal))
    ensures var path := w.moved[ref].path;
      Spared(w, Restore(w, ref, now, fates).0, path) <==> fates(StatOriginal).Works? && Exists(w, path)
  {
    hide FormatFixed, ParseUtc, FormatPerms, CheckRestore, Restore, Exists;
    assert Intact(w, ref);
    OnlyStatDecides(w, ref, fates);
    assert fates(CopyOut) == Works && fates(RemovePartial) == Works;
    RestoreOverwritesExactly(w, ref, now, fates);
  }

  lemma OnlyStatDecides(w: World, ref: string, fates: Fates)
    requires Answers(w, ref) && Intact(w, ref)
    requires forall c: Call :: c != StatOriginal ==> fates(c) == Works
    requires fates(StatOriginal).Works? || Failed(fates(StatOriginal))
    ensures CheckRestore(w, ref, fates).None? <==> !(fates(StatOriginal).Works? && Exists(w, w.moved[ref].path))
  {
    hide FormatFixed, ParseUtc, FormatPerms;
    assert fates(LoadItem) == Works && fates(ReadCopy) == Works && fates(MakeSiteDir) == Works;
  }

  /** With every call working, a restore removes a link at its path that leads nowhere, and then fails. */
  lemma DanglingLinkRemoved(w: World, ref: string, now: Time)
    requires Inv(w) && Answers(w, ref) && w.moved[ref].path in w.site && w.site[w.moved[ref].path].Dangling?
    ensures var (w', o) := Restore(w, ref, now, ALL_WORK);
      o == Refused(RestoreFailed) && w'.site == w.site - {w.moved[ref].path} && w'.items == w.items
  {
    hide FormatFixed, ParseUtc, FormatPerms, Finish;
    assert Intact(w, ref);
    assert CheckRestore(w, ref, ALL_WORK).None?;
    assert Restore(w, ref, now, ALL_WORK) == Settle(w, ref, w.nextIno, None, ALL_WORK);
  }

  // ---- Purge ----

  /** Every run of `Purge` keeps the invariant. */
  lemma PurgeKeeps(w: World, ref: string, force: bool, now: Time, fates: Fates)
    requires Inv(w)
    ensures Inv(Purge(w, ref, force, now, fates).0)
  {
    if IsActive(w, ref) {
      CloseAllKeeps(w, ref, Purged, fates(MarkPurged), fates, Refused(CopyLeft));
    }
  }

  /** With every call working, a purge succeeds exactly for an active record that is forced or past its retention. */
  lemma PurgeSucceedsExactly(w: World, ref: string, force: bool, now: Time)
    requires Recorded(w) && now != ZERO
    ensures Purge(w, ref, force, now, ALL_WORK).1 == Ok <==>
      IsActive(w, ref) && (force || (TimeFromNull(w.items[ref].retention) != ZERO && TimeFromNull(w.items[ref].retention) < now))
  {
    hide FormatFixed, ParseUtc;
    if IsActive(w, ref) { ColumnBefore(TimeFromNull(w.items[ref].retention), now); }
  }

  // ---- runs ----

  /** One operation of the program, or whatever anybody else does to the site between two of them. */
  datatype Op =
    | DoQuarantine(rq: Request, fates: Fates)
    | DoRestore(ref: string, now: Time, fates: Fates)
    | DoPurge(ref: string, force: bool, now: Time, fates: Fates)
    | DoOthers(site: map<string, Entry>, inodes: map<nat, FileState>, nextIno: nat)

  function Step(w: World, op: Op): World {
    match op
    case DoQuarantine(rq, fates) => Quarantine(w, rq, fates).0
    case DoRestore(ref, now, fates) => Restore(w, ref, now, fates).0
    case DoPurge(ref, force, now, fates) => Purge(w, ref, force, now, fates).0
    case DoOthers(site, inodes, nextIno) => w.(site := site, inodes := inodes, nextIno := nextIno)
  }

  /** A run of operations, one after the other; one that dies is followed by a new process. */
  function Run(w: World, ops: seq<Op>): World {
    if ops == [] then w else Step(Run(w, ops[..|ops| - 1]), ops[|ops| - 1])
  }

  /** A reference that is drawn is fresh, and others leave a site whose names lead to files that exist. */
  ghost predicate Possible(w: World, op: Op) {
    && (op.DoQuarantine? ==> FreshPath(w, op.rq.vaultPath))
    && (op.DoOthers? ==> SoundDisk(Step(w, op)))
  }

  ghost predicate PossibleRun(w: World, ops: seq<Op>) {
    forall i :: 0 <= i < |ops| ==> Possible(Run(w, ops[..i]), ops[i])
  }

  /** No removal of this operation takes effect, reports failure, and is given up. */
  predicate Truthful(w: World, op: Op) {
    op.DoQuarantine? ==> !Betrayed(w, op.rq, op.fates)
  }

  ghost predicate TruthfulRun(w: World, ops: seq<Op>) {
    forall i :: 0 <= i < |ops| ==> Truthful(Run(w, ops[..i]), ops[i])
  }

  /** After the operation the invariant holds, and a quarantine has kept or moved its file. */
  ghost predicate StepSecure(w: World, op: Op) {
    Inv(Step(w, op)) && (op.DoQuarantine? ==> KeptOrMoved(w, Step(w, op), op.rq))
  }

  ghost predicate Secure(w: World, ops: seq<Op>) {
    forall i :: 0 <= i < |ops| ==> StepSecure(Run(w, ops[..i]), ops[i])
  }

  lemma OthersKeep(w: World, op: Op)
    requires Inv(w) && op.DoOthers? && Possible(w, op)
    ensures Inv(Step(w, op))
  {
    hide FormatFixed, ParseUtc;
    var w' := Step(w, op);
    forall r | Answers(w', r) ensures Intact(w', r) { assert Answers(w, r) && Intact(w, r); }
  }

  lemma StepKeepsExactly(w: World, op: Op)
    requires Inv(w) && Possible(w, op)
    ensures StepSecure(w, op) <==> Truthful(w, op)
  {
    assert SoundDisk(w) && Recorded(w);
    hide Inv, Quarantine, Restore, Purge, KeptOrMoved, Betrayed;
    match op
    case DoQuarantine(rq, fates) =>
      QuarantineNeverLoses(w, rq, fates);
      if !Betrayed(w, rq, fates) { QuarantineKeeps(w, rq, fates); }
    case DoRestore(ref, now, fates) => RestoreKeeps(w, ref, now, fates);
    case DoPurge(ref, force, now, fates) => PurgeKeeps(w, ref, force, now, fates);
    case DoOthers(_, _, _) => OthersKeep(w, op);
  }

  lemma PossiblePrefix(w: World, ops: seq<Op>, n: nat)
    requires PossibleRun(w, ops) && n <= |ops|
    ensures PossibleRun(w, ops[..n])
    ensures TruthfulRun(w, ops) ==> TruthfulRun(w, ops[..n])
  {
    var front := ops[..n];
    forall i | 0 <= i < n ensures Possible(Run(w, front[..i]), front[i]) { assert front[..i] == ops[..i]; }
    if TruthfulRun(w, ops) {
      forall i | 0 <= i < n ensures Truthful(Run(w, front[..i]), front[i]) { assert front[..i] == ops[..i]; }
    }
  }

  lemma {:induction false} RunKeeps(w: World, ops: seq<Op>)
    requires Inv(w) && PossibleRun(w, ops) && TruthfulRun(w, ops)
    ensures Inv(Run(w, ops))
  {
    if ops != [] {
      hide Inv, Possible, Truthful, Step;
      var n := |ops| - 1;
      PossiblePrefix(w, ops, n);
      RunKeeps(w, ops[..n]);
      StepKeepsExactly(Run(w, ops[..n]), ops[n]);
    }
  }

  lemma SecurePrefix(w: World, ops: seq<Op>, n: nat)
    requires Secure(w, ops) && n <= |ops|
    ensures Secure(w, ops[..n])
  {
    forall i | 0 <= i < n ensures StepSecure(Run(w, ops[..n][..i]), ops[..n][i]) { assert ops[..n][..i] == ops[..i]; }
  }

  lemma SecureHolds(w: World, ops: seq<Op>)
    requires Inv(w) && Secure(w, ops)
    ensures Inv(Run(w, ops))
  {
    if ops != [] { assert StepSecure(Run(w, ops[..|ops| - 1]), ops[|ops| - 1]); }
  }

  /**
   Conservation over runs, exactly: every step of a run keeps the invariant, and every quarantine
   in it has left its file alone or moved it into an intact, active copy, if and only if no
   quarantine is betrayed by a removal that took effect and reported failure.
   */
  lemma {:induction false} ConservationExactly(w: World, ops: seq<Op>)
    requires Inv(w) && PossibleRun(w, ops)
    ensures Secure(w, ops) <==> TruthfulRun(w, ops)
  {
    hide Inv, Possible, Truthful, StepSecure;
    if Secure(w, ops) {
      forall i | 0 <= i < |ops| ensures Truthful(Run(w, ops[..i]), ops[i]) {
        SecurePrefix(w, ops, i);
        SecureHolds(w, ops[..i]);
        StepKeepsExactly(Run(w, ops[..i]), ops[i]);
      }
    }
    if TruthfulRun(w, ops) {
      forall i | 0 <= i < |ops| ensures StepSecure(Run(w, ops[..i]), ops[i]) {
        PossiblePrefix(w, ops, i);
        RunKeeps(w, ops[..i]);
        StepKeepsExactly(Run(w, ops[..i]), ops[i]);
      }
    }
  }

  /**
   Crash safety: after any run of operations and of changes others make to the site between them,
   with any call of any operation failing and a death at any call, short of a removal that takes
   effect and reports failure, the bytes of every removal whose record is still active are intact
   at that record's vault path, with the right original path and digest; and restoring them
   succeeds whenever that path is free.
   */
  lemma {:induction false} NoRunLosesBytes(w: World, ops: seq<Op>)
    requires Inv(w) && PossibleRun(w, ops) && TruthfulRun(w, ops)
    ensures var end := Run(w, ops);
      && Inv(end)
      && forall r, now: Time :: Answers(end, r) && end.moved[r].path !in end.site ==> Restore(end, r, now, ALL_WORK).1 == Ok
  {
    RunKeeps(w, ops);
    var end := Run(w, ops);
    forall r, now: Time | Answers(end, r) && end.moved[r].path !in end.site ensures Restore(end, r, now, ALL_WORK).1 == Ok {
      RestoreSucceedsExactly(end, r, now);
    }
  }

  // ---- record status and retention ----

  /** A run in which nothing is restored or purged: quarantines, and others at work on the site. */
  predicate OnlyQuarantines(ops: seq<Op>) {
    forall i :: 0 <= i < |ops| ==> ops[i].DoQuarantine? || ops[i].DoOthers?
  }

  /** The removal recorded under the reference was not there before. */
  predicate NewlyMoved(w: World, w': World, ref: string) {
    ref in w'.moved && !(ref in w.moved && w.moved[ref] == w'.moved[ref])
  }

  lemma QuarantineAnswers(w: World, op: Op, ref: string)
    requires Inv(w) && Truthful(w, op) && (op.DoQuarantine? || op.DoOthers?)
    ensures Answers(w, ref) || NewlyMoved(w, Step(w, op), ref) ==> Answers(Step(w, op), ref)
  {
    hide Quarantine, Betrayed, Intact;
    if op.DoQuarantine? { QuarantineNeverLoses(w, op.rq, op.fates); }
  }

  /** A quarantine gives its record its own vault path, and no other record a new one. */
  lemma RecordsOwnPath(w: World, rq: Request, fates: Fates, ref: string)
    requires SoundDisk(w) && Recorded(w)
    ensures var w' := Quarantine(w, rq, fates).0;
      IsActive(w', ref) ==>
        (IsActive(w, ref) && w'.items[ref].vaultPath == w.items[ref].vaultPath) || w'.items[ref].vaultPath == rq.vaultPath
  {
    hide Quarantine, Betrayed, KeptOrMoved, SoundDisk, Recorded;
    QuarantineNeverLoses(w, rq, fates);
    if ref == rq.ref && ref !in w.items { QuarantineInserts(w, rq, fates); }
  }

  lemma QuarantineInserts(w: World, rq: Request, fates: Fates)
    requires rq.ref !in w.items
    ensures var w' := Quarantine(w, rq, fates).0; rq.ref in w'.items ==> w'.items[rq.ref].vaultPath == rq.vaultPath
  {
    hide FormatFixed, ParseUtc, FormatPerms, Record;
    if Check(w, rq, fates).None? {
      var file := Resolve(w, rq.path).value;
      var copy := CopyVerify(file.content, rq.vaultPath in w.copies, fates(CopyIn));
      var w1 := if copy.left.Some? then PutCopy(w, rq.vaultPath, copy.left.value) else w;
      RecordInserts(w1, rq, file, fates);
    }
  }

  lemma RecordInserts(w: World, rq: Request, file: FileState, fates: Fates)
    requires rq.ref !in w.items
    ensures var w' := Record(w, rq, file, fates).0; rq.ref in w'.items ==> w'.items[rq.ref].vaultPath == rq.vaultPath
  {
    hide Remove, FormatFixed, FormatPerms;
    RemoveSound(Inserted(w, rq, file), rq, file, fates);
  }

  /** Whatever such a run has moved is recorded as active at its end, and comes back when its path is free. */
  lemma {:induction false} NewlyMovedAnswer(w: World, ops: seq<Op>)
    requires Inv(w) && PossibleRun(w, ops) && TruthfulRun(w, ops) && OnlyQuarantines(ops)
    ensures Inv(Run(w, ops))
    ensures forall r :: NewlyMoved(w, Run(w, ops), r) ==> Answers(Run(w, ops), r)
  {
    if ops != [] {
      hide Inv, Possible, Truthful, Step, Answers;
      var n := |ops| - 1;
      PossiblePrefix(w, ops, n);
      var mid, end := Run(w, ops[..n]), Run(w, ops);
      NewlyMovedAnswer(w, ops[..n]);
      RunKeeps(w, ops);
      forall r | NewlyMoved(w, end, r) ensures Answers(end, r) {
        assert NewlyMoved(w, mid, r) || NewlyMoved(mid, end, r);
        QuarantineAnswers(mid, ops[n], r);
      }
    }
  }

  /** Records are never dropped or reopened, and what an active record says never changes. */
  ghost predicate RecordsAdvance(w: World, w': World) {
    && (forall r :: r in w.items ==> r in w'.items && (w.items[r].status != Active ==> w'.items[r] == w.items[r]))
    && (forall r :: r in w.items ==> w'.items[r].(status := Active) == w.items[r].(status := Active))
    && (forall r :: r in w.moved ==> r in w'.moved && w'.moved[r] == w.moved[r])
  }

  lemma StepAdvances(w: World, op: Op)
    requires Inv(w)
    ensures RecordsAdvance(w, Step(w, op))
  {
    hide FormatFixed, ParseUtc, Quarantine, Restore, Purge, RetentionOver, HasContent;
    match op
    case DoQuarantine(rq, fates) =>
      hide RecordsAdvance, TouchesOnly, KeptOrMoved;
      QuarantineNeverLoses(w, rq, fates);
      QuarantineAdvances(w, Quarantine(w, rq, fates).0, rq);
    case DoRestore(ref, now, fates) =>
      RestoreEffect(w, ref, now, fates);
    case DoPurge(ref, force, now, fates) =>
      PurgeEffect(w, ref, force, now, fates);
    case DoOthers(_, _, _) =>
  }

  lemma QuarantineAdvances(w: World, w': World, rq: Request)
    requires Recorded(w) && TouchesOnly(w, w', rq)
    ensures RecordsAdvance(w, w')
  {
    assert rq.ref in w.moved ==> rq.ref in w.items;
  }

  /** A purge changes one record at most, from active to purged, and only if it may. */
  lemma PurgeEffect(w: World, ref: string, force: bool, now: Time, fates: Fates)
    ensures var w' := Purge(w, ref, force, now, fates).0;
      && w'.moved == w.moved
      && (w'.items == w.items
          || (IsActive(w, ref) && w'.items == w.items[ref := w.items[ref].(status := Purged)]
              && (force || RetentionOver(w.items[ref], now))))
  {
    if IsActive(w, ref) { CloseEffect(w, ref, Purged, fates(MarkPurged), fates, Refused(CopyLeft)); }
  }

  /** The operation removed the record's bytes for good, and it was allowed to: forced, or past its retention. */
  ghost predicate PurgeAllowed(w: World, ref: string, op: Op)
    requires ref in w.items
  {
    && op.DoPurge? && op.ref == ref
    && (op.force || (TimeFromNull(w.items[ref].retention) != ZERO && TimeFromNull(w.items[ref].retention) < op.now))
  }

  /** A record whose bytes were moved is purged only by force, or by a clock past its retention instant. */
  lemma PurgedOnlyWhenAllowed(w: World, ref: string, op: Op)
    requires Inv(w) && Answers(w, ref)
    requires op.DoPurge? ==> op.now != ZERO
    ensures ref in Step(w, op).items && (Step(w, op).items[ref].status == Purged ==> PurgeAllowed(w, ref, op))
  {
    hide FormatFixed, ParseUtc, OctalValue;
    match op
    case DoQuarantine(rq, fates) =>
      QuarantineNeverLoses(w, rq, fates);
    case DoRestore(r, now, fates) =>
      RestoreEffect(w, r, now, fates);
    case DoPurge(r, force, now, fates) =>
      PurgeEffect(w, r, force, now, fates);
      ColumnBefore(TimeFromNull(w.items[ref].retention), now);
    case DoOthers(_, _, _) =>
  }

  ghost predicate NoForce(ops: seq<Op>) {
    forall i :: 0 <= i < |ops| && ops[i].DoPurge? ==> !ops[i].force && ops[i].now != ZERO
  }

  /** The operation is a restore of this record, and after it the bytes that were moved stand at their path. */
  ghost predicate GivesBack(w: World, op: Op, ref: string, taken: Taken) {
    op.DoRestore? && op.ref == ref && HasContent(Step(w, op), taken.path, taken.file.content)
  }

  /** A record whose bytes were moved is closed as restored only by a restore that gives them back. */
  lemma RestoredOnlyWhenBack(w: World, ref: string, op: Op)
    requires Inv(w) && Answers(w, ref)
    ensures ref in Step(w, op).items && (Step(w, op).items[ref].status == Restored ==> GivesBack(w, op, ref, w.moved[ref]))
  {
    hide FormatFixed, ParseUtc, OctalValue, Quarantine, Restore, Purge;
    assert Intact(w, ref);
    match op
    case DoQuarantine(rq, fates) =>
      QuarantineNeverLoses(w, rq, fates);
    case DoRestore(r, now, fates) =>
      RestoreEffect(w, r, now, fates);
    case DoPurge(r, force, now, fates) =>
      PurgeEffect(w, r, force, now, fates);
    case DoOthers(_, _, _) =>
  }

  /** A purge in the run whose clock had passed this instant. */
  ghost predicate PurgedAfter(ops: seq<Op>, ref: string, until: Instant) {
    exists i :: 0 <= i < |ops| && ops[i].DoPurge? && ops[i].ref == ref && until < ops[i].now
  }

  ghost predicate GivenBack(w: World, ops: seq<Op>, ref: string, taken: Taken) {
    exists i :: 0 <= i < |ops| && GivesBack(Run(w, ops[..i]), ops[i], ref, taken)
  }

  lemma WitnessesStay(w: World, ops: seq<Op>, ref: string, until: Instant, taken: Taken)
    requires ops != []
    ensures PurgedAfter(ops[..|ops| - 1], ref, until) ==> PurgedAfter(ops, ref, until)
    ensures GivenBack(w, ops[..|ops| - 1], ref, taken) ==> GivenBack(w, ops, ref, taken)
  {
    var front := ops[..|ops| - 1];
    if i :| 0 <= i < |front| && front[i].DoPurge? && front[i].ref == ref && until < front[i].now { assert ops[i] == front[i]; }
    if i :| 0 <= i < |front| && GivesBack(Run(w, front[..i]), front[i], ref, taken) {
      assert front[..i] == ops[..i] && front[i] == ops[i];
    }
  }

  /** The last operation of a run is itself a witness. */
  lemma LastWitness(w: World, ops: seq<Op>, ref: string, until: Instant, taken: Taken)
    requires ops != []
    ensures var op, mid := ops[|ops| - 1], Run(w, ops[..|ops| - 1]);
      && (op.DoPurge? && op.ref == ref && until < op.now ==> PurgedAfter(ops, ref, until))
      && (GivesBack(mid, op, ref, taken) ==> GivenBack(w, ops, ref, taken))
  {
    var n := |ops| - 1;
    if GivesBack(Run(w, ops[..n]), ops[n], ref, taken) { assert ops[n] == ops[|ops| - 1]; }
  }

  /** What a run without forced purges leaves of a record that answered for moved bytes. */
  ghost predicate Retained(w: World, ops: seq<Op>, ref: string)
    requires Answers(w, ref)
  {
    var end, until := Run(w, ops), TimeFromNull(w.items[ref].retention);
    && ref in end.items && ref in end.moved && end.moved[ref] == w.moved[ref]
    && end.items[ref].(status := Active) == w.items[ref]
    && (end.items[ref].status == Active ==> Intact(end, ref))
    && (end.items[ref].status == Restored ==> GivenBack(w, ops, ref, w.moved[ref]))
    && (end.items[ref].status == Purged ==> until != ZERO && PurgedAfter(ops, ref, until))
  }

  lemma RetainedStep(w: World, ops: seq<Op>, ref: string)
    requires Answers(w, ref) && ops != [] && Retained(w, ops[..|ops| - 1], ref) && NoForce(ops)
    requires Inv(Run(w, ops[..|ops| - 1])) && Inv(Run(w, ops))
    ensures Retained(w, ops, ref)
  {
    hide TimeFromNull, Step, GivesBack, Intact, SoundDisk, OwnPaths, Recorded, PurgedAfter, GivenBack;
    var n, until := |ops| - 1, TimeFromNull(w.items[ref].retention);
    var mid, op := Run(w, ops[..n]), ops[n];
    WitnessesStay(w, ops, ref, until, w.moved[ref]);
    LastWitness(w, ops, ref, until, w.moved[ref]);
    StepAdvances(mid, op);
    if mid.items[ref].status == Active {
      PurgedOnlyWhenAllowed(mid, ref, op);
      RestoredOnlyWhenBack(mid, ref, op);
    }
  }

  /**
   Retention over runs: at the end of a run without forced purges a record that answered for moved
   bytes is active with its copy intact; or restored, by a restore of the run after which the very
   bytes stood at their path; or purged, by a purge whose clock had passed its retention instant.
   A record without retention is never purged.
   */
  lemma {:induction false} RetentionHolds(w: World, ops: seq<Op>, ref: string)
    requires Inv(w) && PossibleRun(w, ops) && TruthfulRun(w, ops) && NoForce(ops) && Answers(w, ref)
    ensures Retained(w, ops, ref)
  {
    if ops != [] {
      hide Inv, Possible, Truthful, Step, Retained;
      var n := |ops| - 1;
      assert forall i :: 0 <= i < n ==> ops[..n][i] == ops[i];
      PossiblePrefix(w, ops, n);
      RetentionHolds(w, ops[..n], ref);
      RunKeeps(w, ops[..n]);
      RunKeeps(w, ops);
      RetainedStep(w, ops, ref);
    } else {
      assert Intact(w, ref);
    }
  }

  // ---- PurgeExpired ----

  /** `ExpiredItems`: the active records whose retention text sorts before the clock's. */
  ghost predicate Expired(w: World, now: Time, refs: seq<string>) {
    && (forall i, j :: 0 <= i < j < |refs| ==> refs[i] != refs[j])
    && forall r :: r in refs <==> IsActive(w, r) && RetentionOver(w.items[r], now)
  }

  function Purges(refs: seq<string>, clock: nat -> Time, fates: nat -> Fates): (ops: seq<Op>)
    ensures |ops| == |refs|
    ensures forall i :: 0 <= i < |refs| ==> ops[i] == DoPurge(refs[i], false, clock(i), fates(i))
  {
    seq(|refs|, i requires 0 <= i < |refs| => DoPurge(refs[i], false, clock(i), fates(i)))
  }

  lemma PurgeWorks(w: World, ref: string, now: Time)
    requires IsActive(w, ref) && RetentionOver(w.items[ref], now)
    ensures var (w', o) := Purge(w, ref, false, now, ALL_WORK);
      o == Ok && w'.items == w.items[ref := w.items[ref].(status := Purged)]
  {
    DiscardEffect(SetStatus(w, ref, Purged), w.items[ref].vaultPath, Works, Ok);
  }

  /** Of the listed records, the first `i` are purged and the others are as they were. */
  ghost predicate PurgedUpTo(start: World, w: World, refs: seq<string>, i: nat) {
    forall k :: 0 <= k < |refs| ==>
      && refs[k] in w.items && refs[k] in start.items
      && w.items[refs[k]] == if k < i then start.items[refs[k]].(status := Purged) else start.items[refs[k]]
  }

  lemma PurgedOneMore(start: World, w: World, refs: seq<string>, i: nat, now: Time)
    requires Expired(start, now, refs) && PurgedUpTo(start, w, refs, i) && i < |refs|
    ensures var (w', o) := Purge(w, refs[i], false, now, ALL_WORK); o == Ok && PurgedUpTo(start, w', refs, i + 1)
  {
    assert refs[i] in refs;
    PurgeWorks(w, refs[i], now);
  }

  lemma NonePurged(start: World, now: Time, refs: seq<string>)
    requires Expired(start, now, refs)
    ensures PurgedUpTo(start, start, refs, 0)
  {
    assert forall k :: 0 <= k < |refs| ==> refs[k] in refs;
  }

  lemma RunStep(w: World, ops: seq<Op>, i: nat)
    requires i < |ops|
    ensures Run(w, ops[..i + 1]) == Step(Run(w, ops[..i]), ops[i])
  {
    assert ops[..i + 1][..i] == ops[..i];
  }

  ghost predicate Smooth(refs: seq<string>, now: Time, clock: nat -> Time, fates: nat -> Fates) {
    forall i :: 0 <= i < |refs| ==> fates(i) == ALL_WORK && clock(i) == now
  }

  /** When every call works, each purge in turn succeeds. */
  lemma {:induction false} SmoothRun(start: World, now: Time, refs: seq<string>, clock: nat -> Time, fates: nat -> Fates, i: nat)
    requires Expired(start, now, refs) && Smooth(refs, now, clock, fates) && i <= |refs|
    ensures var w := Run(start, Purges(refs, clock, fates)[..i]);
      && PurgedUpTo(start, w, refs, i)
      && (i < |refs| ==> Purge(w, refs[i], false, clock(i), fates(i)).1 == Ok)
    decreases i
  {
    hide Purge, Quarantine, Restore, Expired, PurgedUpTo;
    var ops := Purges(refs, clock, fates);
    if i == 0 {
      NonePurged(start, now, refs);
    } else {
      SmoothRun(start, now, refs, clock, fates, i - 1);
      RunStep(start, ops, i - 1);
      PurgedOneMore(start, Run(start, ops[..i - 1]), refs, i - 1, now);
    }
    if i < |refs| { PurgedOneMore(start, Run(start, ops[..i]), refs, i, now); }
  }

  /** How purge number `i` of the loop ends. */
  function PurgeOutcome(start: World, refs: seq<string>, clock: nat -> Time, fates: nat -> Fates, i: nat): Outcome
    requires i < |refs|
  {
    Purge(Run(start, Purges(refs, clock, fates)[..i]), refs[i], false, clock(i), fates(i)).1
  }

  /** Of the first `n` purges, those that succeed. */
  function PurgedAmong(start: World, refs: seq<string>, clock: nat -> Time, fates: nat -> Fates, n: nat): nat
    requires n <= |refs|
  {
    if n == 0 then 0
    else PurgedAmong(start, refs, clock, fates, n - 1) + if PurgeOutcome(start, refs, clock, fates, n - 1) == Ok then 1 else 0
  }

  lemma NextPurge(start: World, refs: seq<string>, clock: nat -> Time, fates: nat -> Fates, i: nat)
    requires i < |refs|
    ensures var ops := Purges(refs, clock, fates);
      Run(start, ops[..i + 1]) == Purge(Run(start, ops[..i]), refs[i], false, clock(i), fates(i)).0
  {
    hide Purge;
    RunStep(start, Purges(refs, clock, fates), i);
  }

  /**
   `PurgeExpired`: one unforced purge per expired record, each with its own clock. One that fails
   does not stop the others; only a death does. What is returned counts the purges that succeeded.
   */
  method PurgeExpired(p: Process, now: Time, refs: seq<string>, clock: nat -> Time, fates: nat -> Fates)
    returns (purged: nat, died: bool, ghost done: nat)
    requires Expired(p.world, now, refs)
    modifies p
    ensures done <= |refs| && p.world == Run(old(p.world), Purges(refs, clock, fates)[..done])
    ensures purged == PurgedAmong(old(p.world), refs, clock, fates, done)
    ensures forall i :: 0 <= i < done ==> (PurgeOutcome(old(p.world), refs, clock, fates, i) == Died <==> died && i == done - 1)
    ensures if died then done > 0 else done == |refs|
  {
    hide Purge, Step, Run, Purges, Expired;
    purged, died, done := 0, false, 0;
    ghost var start, ops := p.world, Purges(refs, clock, fates);
    assert Run(start, ops[..0]) == start by { RunOfNothing(start, ops[..0]); }
    var i := 0;
    while i < |refs|
      invariant 0 <= i <= |refs| && done == i && !died
      invariant p.world == Run(start, ops[..i])
      invariant purged == PurgedAmong(start, refs, clock, fates, i)
      invariant forall k :: 0 <= k < i ==> PurgeOutcome(start, refs, clock, fates, k) != Died
    {
      NextPurge(start, refs, clock, fates, i);
      var o := p.PurgeItem(refs[i], false, clock(i), fates(i));
      assert o == PurgeOutcome(start, refs, clock, fates, i);
      done := i + 1;
      if o.Died? { return purged, true, i + 1; }
      if o.Ok? { purged := purged + 1; }
      i := i + 1;
    }
  }

  lemma RunOneMore(w: World, ops: seq<Op>, op: Op)
    ensures Run(w, ops + [op]) == Step(Run(w, ops), op)
  {
    assert (ops + [op])[..|ops|] == ops;
  }

  lemma PossibleOneMore(w: World, ops: seq<Op>, op: Op)
    requires PossibleRun(w, ops) && Possible(Run(w, ops), op)
    ensures PossibleRun(w, ops + [op])
    ensures TruthfulRun(w, ops) && Truthful(Run(w, ops), op) ==> TruthfulRun(w, ops + [op])
  {
    hide Possible, Truthful, Run;
    var all := ops + [op];
    forall i | 0 <= i < |all| ensures Possible(Run(w, all[..i]), all[i]) {
      assert all[..i] == if i < |ops| then ops[..i] else ops;
    }
    if TruthfulRun(w, ops) && Truthful(Run(w, ops), op) {
      forall i | 0 <= i < |all| ensures Truthful(Run(w, all[..i]), all[i]) {
        assert all[..i] == if i < |ops| then ops[..i] else ops;
      }
    }
  }

  lemma RunOfNothing(w: World, none: seq<Op>)
    requires none == []
    ensures Run(w, none) == w
  {
  }

  /** When every call works, all the expired records are purged, and counted. */
  lemma {:induction false} SmoothPurgesAll(start: World, now: Time, refs: seq<string>, clock: nat -> Time, fates: nat -> Fates, n: nat)
    requires Expired(start, now, refs) && Smooth(refs, now, clock, fates) && n <= |refs|
    ensures PurgedAmong(start, refs, clock, fates, n) == n
    ensures PurgedUpTo(start, Run(start, Purges(refs, clock, fates)[..n]), refs, n)
  {
    hide Purge, Expired, PurgedUpTo, Run, Purges;
    SmoothRun(start, now, refs, clock, fates, n);
    if n > 0 {
      SmoothPurgesAll(start, now, refs, clock, fates, n - 1);
      SmoothRun(start, now, refs, clock, fates, n - 1);
    }
  }
}
