/** The recursive copy of a device's files to a local directory, with its running totals. */
module MirrorBackup {
  import opened Basics
  import opened Bytes
  import opened Wrappers

  type Name = string

  const BUFSIZE: nat := 0x1_0000

  /**
   * What the device holds, and how dealing with it goes.  A file: whether it opens, whether the local file
   * can be created and a buffer had, how the copying ends, how many bytes reach the disk when closing the
   * local file cannot flush them all, and whether the file can be removed.
   * A directory: whether the local one can be made, its name encoded and its entries listed.
   */
  datatype Tree =
    | File(data: seq<byte>, opens: bool, creates: bool, buffers: bool, ends: End, flushed: Option<nat>, removes: bool)
    | Dir(entries: Entries, makes: bool, encodes: bool, lists: bool)

  /** At the end of the file; or when, after so many bytes, reading or writing fails, or a read succeeds that brings
      nothing though there is more. */
  datatype End = AtEnd | Fails(at: nat) | Stops(at: nat)

  /** An entry whose name cannot be decoded has none. */
  datatype Entries = Nil | Cons(name: Option<Name>, node: Tree, rest: Entries)

  datatype Local = LocalFile(data: seq<byte>) | LocalDir(entries: map<Name, Local>)

  /** What is now at the local path, whether all went well, and the files and bytes copied. */
  datatype Done = Done(local: Option<Local>, ok: bool, files: nat, bytes: nat)

  /** The bytes that are copied before that. */
  function Got(f: Tree): (n: nat)
    requires f.File?
    ensures n <= |f.data|
  {
    if f.ends == AtEnd then |f.data| else Min(f.ends.at, |f.data|)
  }

  predicate Breaks(f: Tree)
    requires f.File?
  {
    f.ends.Fails? && f.ends.at <= |f.data|
  }

  /** What of the bytes written is in the file once it is closed. */
  function OnDisk(part: seq<byte>, flushed: Option<nat>): seq<byte> {
    if flushed.Some? && flushed.value < |part| then part[..flushed.value] else part
  }

  /** What is in the file when the copy broke off after k bytes: the last write may have gone further. */
  function Broken(f: Tree, k: nat): seq<byte>
    requires f.File? && k <= |f.data|
  {
    if f.flushed.Some? then OnDisk(f.data, f.flushed) else f.data[..k]
  }

  /** A read that brings nothing is taken for the end of the file.  Neither the closing of the local file nor its
      removal is looked at. */
  function CopyFile(f: Tree, prior: Option<Local>): Done
    requires f.File?
  {
    if !f.opens || !f.creates || (prior.Some? && prior.value.LocalDir?) then Done(prior, false, 0, 0)
    // without a buffer the file just created stays behind, empty
    else if !f.buffers then Done(Some(LocalFile([])), false, 0, 0)
    else if Breaks(f) then Done(if f.removes then None else Some(LocalFile(Broken(f, Got(f)))), false, 0, Got(f))
    else Done(Some(LocalFile(OnDisk(f.data[..Got(f)], f.flushed))), true, 1, Got(f))
  }

  function Child(m: map<Name, Local>, n: Name): Option<Local> {
    if n in m then Some(m[n]) else None
  }

  function Set(m: map<Name, Local>, n: Name, l: Option<Local>): map<Name, Local> {
    match l
    case None => m - {n}
    case Some(x) => m[n := x]
  }

  function Backup(t: Tree, prior: Option<Local>): Done {
    match t
    case File(_, _, _, _, _, _, _) => CopyFile(t, prior)
    case Dir(entries, makes, encodes, lists) =>
      if prior.None? && !makes then Done(None, false, 0, 0)
      else if prior.Some? && prior.value.LocalFile? then Done(prior, false, 0, 0)
      else
        var m := if prior.Some? then prior.value.entries else map[];
        if !encodes then Done(Some(LocalDir(m)), false, 0, 0)
        else if !lists then Done(Some(LocalDir(m)), true, 0, 0)
        else BackupEntries(entries, m)
  }

  function BackupEntries(es: Entries, m: map<Name, Local>): Done {
    match es
    case Nil => Done(Some(LocalDir(m)), true, 0, 0)
    case Cons(None, _, rest) => BackupEntries(rest, m)
    case Cons(Some(n), node, rest) =>
      var a := Backup(node, Child(m, n));
      var b := BackupEntries(rest, Set(m, n, a.local));
      Done(b.local, a.ok && b.ok, a.files + b.files, a.bytes + b.bytes)
  }

  // ---- What should come of it ----

  predicate Copies(f: Tree)
    requires f.File?
  {
    f.opens && f.creates && f.buffers && !Breaks(f)
  }

  /** What was there is a directory where a file goes, or the other way round. */
  predicate Clashes(t: Tree, prior: Option<Local>) {
    prior.Some? && (t.File? <==> prior.value.LocalDir?)
  }

  /** The local directory is there, or can be made. */
  predicate Enters(t: Tree, prior: Option<Local>)
    requires t.Dir?
  {
    !Clashes(t, prior) && (prior.Some? || t.makes)
  }

  function Within(prior: Option<Local>): map<Name, Local> {
    if prior.Some? && prior.value.LocalDir? then prior.value.entries else map[]
  }

  /** Every directory entered and every file copied, of those that are reached. */
  predicate NothingFails(t: Tree, prior: Option<Local>) {
    match t
    case File(_, _, _, _, _, _, _) => Copies(t) && !Clashes(t, prior)
    case Dir(entries, _, encodes, lists) =>
      Enters(t, prior) && encodes && (lists ==> NothingFailsIn(entries, Within(prior)))
  }

  predicate NothingFailsIn(es: Entries, m: map<Name, Local>) {
    match es
    case Nil => true
    case Cons(name, node, rest) => (name.Some? ==> NothingFails(node, Child(m, name.value))) && NothingFailsIn(rest, m)
  }

  /** The files that get copied, and the bytes moved, also those of copies that fail later. */
  function Files(t: Tree, prior: Option<Local>): nat {
    match t
    case File(_, _, _, _, _, _, _) => Bit(Copies(t) && !Clashes(t, prior))
    case Dir(entries, _, encodes, lists) =>
      if Enters(t, prior) && encodes && lists then FilesIn(entries, Within(prior)) else 0
  }

  function FilesIn(es: Entries, m: map<Name, Local>): nat {
    match es
    case Nil => 0
    case Cons(name, node, rest) => (if name.Some? then Files(node, Child(m, name.value)) else 0) + FilesIn(rest, m)
  }

  function Moved(t: Tree, prior: Option<Local>): nat {
    match t
    case File(_, opens, creates, buffers, _, _, _) =>
      if opens && creates && buffers && !Clashes(t, prior) then Got(t) else 0
    case Dir(entries, _, encodes, lists) =>
      if Enters(t, prior) && encodes && lists then MovedIn(entries, Within(prior)) else 0
  }

  function MovedIn(es: Entries, m: map<Name, Local>): nat {
    match es
    case Nil => 0
    case Cons(name, node, rest) => (if name.Some? then Moved(node, Child(m, name.value)) else 0) + MovedIn(rest, m)
  }

  function Names(es: Entries): set<Name> {
    match es
    case Nil => {}
    case Cons(name, _, rest) => (if name.Some? then {name.value} else {}) + Names(rest)
  }

  /** No directory lists a name twice. */
  predicate UniqueNames(t: Tree) {
    t.Dir? ==> UniqueNamesIn(t.entries)
  }

  predicate UniqueNamesIn(es: Entries) {
    match es
    case Nil => true
    case Cons(name, node, rest) =>
      (name.Some? ==> name.value !in Names(rest)) && UniqueNames(node) && UniqueNamesIn(rest)
  }

  /** Whatever was there before, and whatever fails: the result says whether nothing failed, and the totals are
      exact. */
  lemma {:induction false} TotalsExact(t: Tree, prior: Option<Local>)
    requires UniqueNames(t)
    ensures var d := Backup(t, prior);
            d.ok == NothingFails(t, prior) && d.files == Files(t, prior) && d.bytes == Moved(t, prior)
    decreases t
  {
    if t.Dir? && Enters(t, prior) && t.encodes && t.lists {
      EntriesExact(t.entries, Within(prior), Within(prior));
    }
  }

  /** The entries to come find what was there at the beginning. */
  lemma {:induction false} EntriesExact(es: Entries, m: map<Name, Local>, was: map<Name, Local>)
    requires UniqueNamesIn(es) && forall n :: n in Names(es) ==> Child(m, n) == Child(was, n)
    ensures var d := BackupEntries(es, m);
            d.ok == NothingFailsIn(es, was) && d.files == FilesIn(es, was) && d.bytes == MovedIn(es, was)
    decreases es
  {
    match es
    case Nil =>
    case Cons(None, node, rest) => EntriesExact(rest, m, was);
    case Cons(Some(n), node, rest) =>
      TotalsExact(node, Child(m, n));
      EntriesExact(rest, Set(m, n, Backup(node, Child(m, n)).local), was);
  }

  // ---- Path by path ----

  datatype Leaf = IsFile(data: seq<byte>) | IsDir

  function LocalAt(l: Option<Local>, path: seq<Name>): Option<Leaf>
    decreases |path|
  {
    match l
    case None => None
    case Some(LocalFile(data)) => if path == [] then Some(IsFile(data)) else None
    case Some(LocalDir(m)) => if path == [] then Some(IsDir) else LocalAt(Child(m, path[0]), path[1..])
  }

  function Entry(es: Entries, n: Name): Option<Tree> {
    match es
    case Nil => None
    case Cons(name, node, rest) => if name == Some(n) then Some(node) else Entry(rest, n)
  }

  /** What the device's tree has at a path. */
  function RemoteAt(t: Option<Tree>, path: seq<Name>): Option<Leaf>
    decreases |path|
  {
    match t
    case None => None
    case Some(File(data, _, _, _, _, _, _)) => if path == [] then Some(IsFile(data)) else None
    case Some(Dir(entries, _, _, _)) => if path == [] then Some(IsDir) else RemoteAt(Entry(entries, path[0]), path[1..])
  }

  /** What a backup leaves at a path: of a copy that succeeded, what of the bytes read closing it flushed; of one that
      failed nothing, or an empty file if there was no buffer, or the part written if it cannot be removed; and what
      was there before, where it does not reach. */
  function Expected(t: Option<Tree>, prior: Option<Local>, path: seq<Name>): Option<Leaf>
    decreases |path|
  {
    match t
    case None => LocalAt(prior, path)
    case Some(File(data, opens, creates, buffers, _, flushed, removes)) =>
      if !opens || !creates || Clashes(t.value, prior) then LocalAt(prior, path)
      else if path != [] then None
      else if !buffers then Some(IsFile([]))
      else if Copies(t.value) then Some(IsFile(OnDisk(data[..Got(t.value)], flushed)))
      else if removes then None else Some(IsFile(Broken(t.value, Got(t.value))))
    case Some(Dir(entries, _, encodes, lists)) =>
      if !Enters(t.value, prior) then LocalAt(prior, path)
      else if path == [] then Some(IsDir)
      else if !encodes || !lists then LocalAt(prior, path)
      else Expected(Entry(entries, path[0]), Child(Within(prior), path[0]), path[1..])
  }

  /** The local directory after an entry list is, name by name, what the backup of each entry leaves. */
  lemma {:induction false} EntriesLeave(es: Entries, m: map<Name, Local>, n: Name)
    requires UniqueNamesIn(es)
    ensures var d := BackupEntries(es, m);
            && d.local.Some? && d.local.value.LocalDir?
            && Child(d.local.value.entries, n) == (match Entry(es, n)
                                                   case None => Child(m, n)
                                                   case Some(t) => Backup(t, Child(m, n)).local)
    ensures Entry(es, n).Some? ==> UniqueNames(Entry(es, n).value)
    decreases es
  {
    match es
    case Nil =>
    case Cons(None, node, rest) => EntriesLeave(rest, m, n);
    case Cons(Some(k), node, rest) =>
      EntriesLeave(rest, Set(m, k, Backup(node, Child(m, k)).local), n);
      NotAnEntry(rest, k);
  }

  lemma {:induction false} NotAnEntry(es: Entries, n: Name)
    ensures Entry(es, n).None? <==> n !in Names(es)
  {
    match es
    case Nil =>
    case Cons(_, _, rest) => NotAnEntry(rest, n);
  }

  /** Path by path, this is what a backup leaves. */
  lemma {:induction false} LeavesExpected(t: Tree, prior: Option<Local>, path: seq<Name>)
    requires UniqueNames(t)
    ensures LocalAt(Backup(t, prior).local, path) == Expected(Some(t), prior, path)
    decreases |path|
  {
    if t.Dir? && Enters(t, prior) && t.encodes && t.lists && path != [] {
      var m := Within(prior);
      EntriesLeave(t.entries, m, path[0]);
      if Entry(t.entries, path[0]).Some? {
        LeavesExpected(Entry(t.entries, path[0]).value, Child(m, path[0]), path[1..]);
      }
    } else if t.Dir? && Enters(t, prior) && t.encodes && t.lists {
      EntriesLeave(t.entries, Within(prior), "");
    }
  }

  // ---- When the program reports success ----

  /** Reading goes on to the end of the file. */
  predicate ReadWhole(f: Tree)
    requires f.File?
  {
    f.ends == AtEnd || f.ends.at >= |f.data|
  }

  lemma WholeData(f: Tree)
    requires f.File? && ReadWhole(f)
    ensures f.data[..Got(f)] == f.data
  {
  }

  /** Closing the local file flushes all of it. */
  predicate Flushes(f: Tree)
    requires f.File?
  {
    f.flushed.None? || f.flushed.value >= Got(f)
  }

  /** Every directory can be listed, and every name decoded. */
  predicate Listed(t: Tree) {
    t.Dir? ==> t.lists && ListedIn(t.entries)
  }

  predicate ListedIn(es: Entries) {
    match es
    case Nil => true
    case Cons(name, node, rest) => name.Some? && Listed(node) && ListedIn(rest)
  }

  /** Each file is read to its end, and flushed when it is closed. */
  predicate AllArrive(t: Tree) {
    match t
    case File(_, _, _, _, _, _, _) => ReadWhole(t) && Flushes(t)
    case Dir(entries, _, _, _) => AllArriveIn(entries)
  }

  predicate AllArriveIn(es: Entries) {
    match es
    case Nil => true
    case Cons(_, node, rest) => AllArrive(node) && AllArriveIn(rest)
  }

  lemma {:induction false} SoundEntry(es: Entries, m: map<Name, Local>, n: Name)
    requires NothingFailsIn(es, m) && ListedIn(es) && UniqueNamesIn(es) && Entry(es, n).Some?
    ensures var t := Entry(es, n).value;
            && NothingFails(t, Child(m, n)) && Listed(t) && UniqueNames(t)
            && (AllArriveIn(es) ==> AllArrive(t))
  {
    match es
    case Cons(name, _, rest) =>
      if name != Some(n) {
        SoundEntry(rest, m, n);
      }
  }

  /** The device's files over what was there before. */
  function Mirrored(t: Tree, prior: Option<Local>, path: seq<Name>): Option<Leaf> {
    if RemoteAt(Some(t), path).Some? then RemoteAt(Some(t), path) else LocalAt(prior, path)
  }

  lemma LocalBelow(prior: Option<Local>, path: seq<Name>)
    requires path != [] && (prior.Some? ==> prior.value.LocalDir?)
    ensures LocalAt(prior, path) == LocalAt(Child(Within(prior), path[0]), path[1..])
  {
  }

  lemma NoSuchEntry(prior: Option<Local>, path: seq<Name>)
    ensures RemoteAt(None, path) == None && Expected(None, prior, path) == LocalAt(prior, path)
  {
  }

  lemma {:induction false} ArrivedMirrors(t: Tree, prior: Option<Local>, path: seq<Name>)
    requires NothingFails(t, prior) && Listed(t) && UniqueNames(t) && AllArrive(t)
    ensures Expected(Some(t), prior, path) == Mirrored(t, prior, path)
    decreases |path|
  {
    if t.File? {
      WholeData(t);
    } else if path != [] {
      LocalBelow(prior, path);
      NoSuchEntry(Child(Within(prior), path[0]), path[1..]);
      assert RemoteAt(Some(t), path) == RemoteAt(Entry(t.entries, path[0]), path[1..]);
      if Entry(t.entries, path[0]).Some? {
        SoundEntry(t.entries, Within(prior), path[0]);
        ArrivedMirrors(Entry(t.entries, path[0]).value, Child(Within(prior), path[0]), path[1..]);
      }
    }
  }

  lemma {:induction false} ShortDiffers(t: Tree, prior: Option<Local>) returns (path: seq<Name>)
    requires NothingFails(t, prior) && Listed(t) && UniqueNames(t) && !AllArrive(t)
    ensures RemoteAt(Some(t), path).Some? && Expected(Some(t), prior, path) != RemoteAt(Some(t), path)
    decreases t
  {
    if t.File? {
      path := [];
    } else {
      var n, node := ShortEntry(t.entries, Within(prior));
      var rest := ShortDiffers(node, Child(Within(prior), n));
      path := [n] + rest;
      assert path[1..] == rest;
    }
  }

  lemma {:induction false} ShortEntry(es: Entries, m: map<Name, Local>) returns (n: Name, node: Tree)
    requires NothingFailsIn(es, m) && ListedIn(es) && UniqueNamesIn(es) && !AllArriveIn(es)
    ensures Entry(es, n) == Some(node) && node < es
    ensures NothingFails(node, Child(m, n)) && Listed(node) && UniqueNames(node) && !AllArrive(node)
  {
    match es
    case Cons(name, first, rest) =>
      if !AllArrive(first) {
        n, node := name.value, first;
      } else {
        n, node := ShortEntry(rest, m);
        NotAnEntry(rest, name.value);
      }
  }

  /** When the program reports success, with everything listed, the local tree has the device's files over what was
      there before, exactly if no read brought nothing before the end of its file, and every local file could be
      flushed when it was closed. */
  lemma SuccessMirrorsIff(t: Tree, prior: Option<Local>)
    requires UniqueNames(t) && Listed(t) && Backup(t, prior).ok
    ensures (forall path :: LocalAt(Backup(t, prior).local, path) == Mirrored(t, prior, path)) <==> AllArrive(t)
  {
    TotalsExact(t, prior);
    forall path ensures LocalAt(Backup(t, prior).local, path) == Expected(Some(t), prior, path) {
      LeavesExpected(t, prior, path);
    }
    if AllArrive(t) {
      forall path ensures Expected(Some(t), prior, path) == Mirrored(t, prior, path) {
        ArrivedMirrors(t, prior, path);
      }
    } else {
      var path := ShortDiffers(t, prior);
      assert LocalAt(Backup(t, prior).local, path) != Mirrored(t, prior, path);
    }
  }

  /** What failures can leave behind: an empty file, a part of one, and, under a report of success, a file that could
      not be flushed and one that was not read to its end. */
  lemma LeftBehind(data: seq<byte>)
    requires |data| == 2
    ensures var f := File(data, true, true, false, AtEnd, None, true);
            Backup(f, None) == Done(Some(LocalFile([])), false, 0, 0)
    ensures var f := File(data, true, true, true, Fails(1), None, false);
            Backup(f, None) == Done(Some(LocalFile(data[..1])), false, 0, 1)
    // the write that fails may have gone further than the bytes counted
    ensures var f := File(data, true, true, true, Fails(1), Some(2), false);
            Backup(f, None) == Done(Some(LocalFile(data)), false, 0, 1)
    ensures var f := File(data, true, true, true, AtEnd, Some(1), true);
            Backup(f, None) == Done(Some(LocalFile(data[..1])), true, 1, 2)
    ensures var f := File(data, true, true, true, Stops(1), None, true);
            Flushes(f) && Backup(f, None) == Done(Some(LocalFile(data[..1])), true, 1, 1)
    // over an old file a copy that breaks off loses that too, and says that it failed
    ensures var f := File(data, true, true, true, Fails(1), None, true);
            Backup(f, Some(LocalFile([9]))) == Done(None, false, 0, 1)
  {
    assert data[..2] == data;
  }

  // ---- When everything succeeds ----

  predicate Clean(t: Tree) {
    match t
    case File(_, _, _, _, _, _, _) => Copies(t) && ReadWhole(t) && Flushes(t)
    case Dir(entries, makes, encodes, lists) => makes && encodes && lists && CleanIn(entries)
  }

  predicate CleanIn(es: Entries) {
    match es
    case Nil => true
    case Cons(name, node, rest) => name.Some? && Clean(node) && CleanIn(rest)
  }

  /** What is at the destination already is no file where a directory goes, nor the other way round. */
  predicate NoClash(t: Tree, prior: Option<Local>) {
    match t
    case File(_, _, _, _, _, _, _) => prior.None? || prior.value.LocalFile?
    case Dir(entries, _, _, _) => prior.None? || (prior.value.LocalDir? && NoClashIn(entries, prior.value.entries))
  }

  predicate NoClashIn(es: Entries, m: map<Name, Local>) {
    match es
    case Nil => true
    case Cons(name, node, rest) => (name.Some? ==> NoClash(node, Child(m, name.value))) && NoClashIn(rest, m)
  }

  function FileCount(t: Tree): nat {
    match t
    case File(_, _, _, _, _, _, _) => 1
    case Dir(entries, _, _, _) => FileCountIn(entries)
  }

  function FileCountIn(es: Entries): nat {
    match es
    case Nil => 0
    case Cons(_, node, rest) => FileCount(node) + FileCountIn(rest)
  }

  function TotalSize(t: Tree): nat {
    match t
    case File(data, _, _, _, _, _, _) => |data|
    case Dir(entries, _, _, _) => TotalSizeIn(entries)
  }

  function TotalSizeIn(es: Entries): nat {
    match es
    case Nil => 0
    case Cons(_, node, rest) => TotalSize(node) + TotalSizeIn(rest)
  }

  lemma {:induction false} CleanTotals(t: Tree, prior: Option<Local>)
    requires Clean(t) && UniqueNames(t) && NoClash(t, prior)
    ensures var d := Backup(t, prior); d.local.Some? && d.ok && d.files == FileCount(t) && d.bytes == TotalSize(t)
    decreases t
  {
    if t.Dir? {
      if prior.None? {
        NoClashFresh(t.entries);
      }
      CleanTotalsIn(t.entries, if prior.Some? then prior.value.entries else map[]);
    }
  }

  lemma {:induction false} CleanTotalsIn(es: Entries, m: map<Name, Local>)
    requires CleanIn(es) && UniqueNamesIn(es) && NoClashIn(es, m)
    ensures var d := BackupEntries(es, m);
            d.local.Some? && d.ok && d.files == FileCountIn(es) && d.bytes == TotalSizeIn(es)
    decreases es
  {
    match es
    case Nil =>
    case Cons(name, node, rest) =>
      CleanTotals(node, Child(m, name.value));
      NoClashOthers(rest, m, name.value, Backup(node, Child(m, name.value)).local);
      CleanTotalsIn(rest, Set(m, name.value, Backup(node, Child(m, name.value)).local));
  }

  lemma {:induction false} NoClashFresh(es: Entries)
    ensures NoClashIn(es, map[])
  {
    match es
    case Nil =>
    case Cons(_, node, rest) => NoClashFresh(rest);
  }

  /** A change at another name causes no clash. */
  lemma {:induction false} NoClashOthers(es: Entries, m: map<Name, Local>, n: Name, l: Option<Local>)
    requires NoClashIn(es, m) && n !in Names(es)
    ensures NoClashIn(es, Set(m, n, l))
  {
    match es
    case Nil =>
    case Cons(_, node, rest) => NoClashOthers(rest, m, n, l);
  }

  lemma {:induction false} CleanEntry(es: Entries, m: map<Name, Local>, n: Name)
    requires CleanIn(es) && NoClashIn(es, m) && Entry(es, n).Some?
    ensures Clean(Entry(es, n).value) && NoClash(Entry(es, n).value, Child(m, n))
  {
    match es
    case Cons(name, _, rest) =>
      if name != Some(n) {
        CleanEntry(rest, m, n);
      }
  }

  /** When everything succeeds the local tree has at each path what the device has there, and elsewhere what it
      had before; the totals are the number and the size of the device's files. */
  lemma {:induction false} CleanMirrors(t: Tree, prior: Option<Local>, path: seq<Name>)
    requires Clean(t) && UniqueNames(t) && NoClash(t, prior)
    ensures var d := Backup(t, prior);
            && d.ok && d.files == FileCount(t) && d.bytes == TotalSize(t)
            && LocalAt(d.local, path) == Mirrored(t, prior, path)
    decreases |path|
  {
    CleanTotals(t, prior);
    if t.File? {
      WholeData(t);
    } else {
      var m := if prior.Some? then prior.value.entries else map[];
      if prior.None? {
        NoClashFresh(t.entries);
      }
      if path == [] {
        EntriesLeave(t.entries, m, "");
      } else {
        EntriesLeave(t.entries, m, path[0]);
        LocalBelow(prior, path);
        NoSuchEntry(Child(m, path[0]), path[1..]);
        assert RemoteAt(Some(t), path) == RemoteAt(Entry(t.entries, path[0]), path[1..]);
        if Entry(t.entries, path[0]).Some? {
          CleanEntry(t.entries, m, path[0]);
          CleanMirrors(Entry(t.entries, path[0]).value, Child(m, path[0]), path[1..]);
        }
      }
    }
  }

  // ---- The program ----

  class Pbackup {
    var gFiles: nat
    var gBytes: nat

    constructor ()
      ensures gFiles == 0 && gBytes == 0
    {
      gFiles, gBytes := 0, 0;
    }

    /** One read of the device's file, cut short as the device likes, and the write of what was read. */
    method Transfer(f: Tree, pos: nat, atMost: nat) returns (ok: bool, nread: nat)
      requires f.File? && pos <= Got(f) && atMost > 0
      ensures ok <==> f.ends != Fails(pos)
      ensures ok ==> pos + nread <= Got(f) && nread <= BUFSIZE
      ensures ok ==> (nread == 0 <==> pos == |f.data| || f.ends == Stops(pos))
    {
      if f.ends == Fails(pos) {
        return false, 0;
      }
      return true, Min(Min(Got(f) - pos, BUFSIZE), atMost);
    }

    method Copy(f: Tree, prior: Option<Local>, shorts: seq<nat>) returns (local: Option<Local>, ok: bool)
      requires f.File? && forall i :: 0 <= i < |shorts| ==> shorts[i] > 0
      modifies this
      ensures var d := CopyFile(f, prior);
              local == d.local && ok == d.ok && gFiles == old(gFiles) + d.files && gBytes == old(gBytes) + d.bytes
    {
      if !f.opens {
        return prior, false;
      }
      if !f.creates || (prior.Some? && prior.value.LocalDir?) {
        return prior, false;
      }
      var dst: seq<byte> := [];
      if !f.buffers {
        return Some(LocalFile(dst)), false;
      }
      ok := true;
      var i := 0;
      while true
        invariant |dst| <= Got(f) && dst == f.data[..|dst|] && ok
        invariant gBytes == old(gBytes) + |dst| && gFiles == old(gFiles)
        decreases |f.data| - |dst|
      {
        var nread;
        ok, nread := Transfer(f, |dst|, if i < |shorts| then shorts[i] else BUFSIZE);
        if !ok {
          break;
        }
        if nread == 0 {
          break;
        }
        dst := dst + f.data[|dst|..|dst| + nread];
        gBytes := gBytes + nread;
        i := i + 1;
      }
      // fclose
      local := Some(LocalFile(if ok then OnDisk(dst, f.flushed) else Broken(f, |dst|)));
      if ok {
        gFiles := gFiles + 1;
        assert dst == f.data[..Got(f)];
      } else if f.removes {
        local := None;
      }
    }

    method BackupDir(t: Tree, prior: Option<Local>, shorts: seq<nat>) returns (local: Option<Local>, ok: bool)
      requires t.Dir? && forall i :: 0 <= i < |shorts| ==> shorts[i] > 0
      modifies this
      ensures var d := Backup(t, prior);
              local == d.local && ok == d.ok && gFiles == old(gFiles) + d.files && gBytes == old(gBytes) + d.bytes
      decreases t
    {
      hide Backup, BackupEntries, CopyFile, Set, Child;
      BackupUnlisted(t, prior);
      if prior.None? && !t.makes {
        return None, false;
      }
      if prior.Some? && prior.value.LocalFile? {
        return prior, false;
      }
      var m := if prior.Some? then prior.value.entries else map[];
      if !t.encodes {
        return Some(LocalDir(m)), false;
      }
      if !t.lists {
        return Some(LocalDir(m)), true;
      }
      ok := true;
      var es := t.entries;
      ghost var whole := BackupEntries(es, m);
      BackupListed(t, prior);
      while es.Cons?
        invariant es == t.entries || es < t.entries
        invariant Rest(whole, BackupEntries(es, m), ok, gFiles - old(gFiles), gBytes - old(gBytes))
        decreases es
      {
        FirstEntry(es, m);
        if es.name.Some? {
          var l, done;
          if es.node.Dir? {
            l, done := BackupDir(es.node, Child(m, es.name.value), shorts);
          } else {
            l, done := Copy(es.node, Child(m, es.name.value), shorts);
          }
          ok := done && ok;
          m := Set(m, es.name.value, l);
        }
        es := es.rest;
      }
      NoEntry(m);
      local := Some(LocalDir(m));
    }
  }

  lemma BackupUnlisted(t: Tree, prior: Option<Local>)
    requires t.Dir?
    ensures prior.None? && !t.makes ==> Backup(t, prior) == Done(None, false, 0, 0)
    ensures prior.Some? && prior.value.LocalFile? ==> Backup(t, prior) == Done(prior, false, 0, 0)
    ensures (if prior.None? then t.makes else prior.value.LocalDir?) && !(t.encodes && t.lists) ==>
              var m := if prior.Some? then prior.value.entries else map[];
              Backup(t, prior) == Done(Some(LocalDir(m)), t.encodes, 0, 0)
  {
  }

  lemma BackupListed(t: Tree, prior: Option<Local>)
    requires t.Dir? && t.encodes && t.lists && if prior.None? then t.makes else prior.value.LocalDir?
    ensures Backup(t, prior) == BackupEntries(t.entries, if prior.Some? then prior.value.entries else map[])
  {
  }

  lemma FirstEntry(es: Entries, m: map<Name, Local>)
    requires es.Cons?
    ensures es.name.None? ==> BackupEntries(es, m) == BackupEntries(es.rest, m)
    ensures es.name.Some? ==>
              var was := Child(m, es.name.value);
              var a := if es.node.File? then CopyFile(es.node, was) else Backup(es.node, was);
              var b := BackupEntries(es.rest, Set(m, es.name.value, a.local));
              BackupEntries(es, m) == Done(b.local, a.ok && b.ok, a.files + b.files, a.bytes + b.bytes)
  {
  }

  lemma NoEntry(m: map<Name, Local>)
    ensures BackupEntries(Nil, m) == Done(Some(LocalDir(m)), true, 0, 0)
  {
  }

  /** The whole is what is done so far and the rest. */
  predicate Rest(whole: Done, rest: Done, ok: bool, files: int, bytes: int) {
    && whole.local == rest.local && whole.ok == (ok && rest.ok)
    && whole.files == files + rest.files && whole.bytes == bytes + rest.bytes
  }
}
