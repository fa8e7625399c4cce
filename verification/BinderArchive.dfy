/**
 What ends up in a binder's archive: the proofs whose bytes arrived, the map of verified proofs, the path each
 is written under, and the tally both of its cover documents read.
 */
module BinderArchive {
  import opened Basics
  import opened Numerals
  import opened ArchiveNames
  import opened NameParts

  type Bytes = string

  /** A file of the archive, or an entry of the ZIP. */
  datatype File = File(name: string, data: Bytes)

  /** Why the bytes of a proof never arrived. */
  datatype Failure = NoPathOnRecord | FileGone

  datatype Fetch = Got(data: Bytes) | Gone(why: Failure)

  // ------------------------------------------------------------------------------ what was fetched

  ghost predicate AllNamed(n: Naming) {
    forall i :: 0 <= i < |n.order| ==> n.order[i] in n.nameOf
  }

  /** The proofs whose bytes arrived, in the order their paths were named; `fetch` is what storage answers. */
  function FilesOf(n: Naming, fetch: string -> Fetch, upTo: nat): seq<File>
    requires AllNamed(n) && upTo <= |n.order|
  {
    if upTo == 0 then []
    else
      var before, path := FilesOf(n, fetch, upTo - 1), n.order[upTo - 1];
      if fetch(path).Got? then before + [File(n.nameOf[path], fetch(path).data)] else before
  }

  /** The failures noted are those of the named paths that did not arrive. */
  ghost predicate AreFailures(n: Naming, fetch: string -> Fetch, upTo: nat, failures: map<string, Failure>)
    requires upTo <= |n.order|
  {
    && (forall p <- failures :: fetch(p) == Gone(failures[p]))
    && (forall j :: 0 <= j < upTo && fetch(n.order[j]).Gone? ==> n.order[j] in failures)
  }

  lemma FailuresGrow(n: Naming, fetch: string -> Fetch, i: nat, failures: map<string, Failure>)
    requires i < |n.order| && AreFailures(n, fetch, i, failures)
    ensures fetch(n.order[i]).Got? ==> AreFailures(n, fetch, i + 1, failures)
    ensures fetch(n.order[i]).Gone? ==> AreFailures(n, fetch, i + 1, failures[n.order[i] := fetch(n.order[i]).why])
  {
  }

  method FetchAll(n: Naming, fetch: string -> Fetch) returns (files: seq<File>, failures: map<string, Failure>)
    requires AllNamed(n)
    ensures files == FilesOf(n, fetch, |n.order|) && AreFailures(n, fetch, |n.order|, failures)
  {
    files, failures := [], map[];
    for i := 0 to |n.order|
      invariant files == FilesOf(n, fetch, i) && AreFailures(n, fetch, i, failures)
    {
      var path := n.order[i];
      FailuresGrow(n, fetch, i, failures);
      var answer := fetch(path);
      if answer.Gone? {
        failures := failures[path := answer.why];
      } else {
        files := files + [File(n.nameOf[path], answer.data)];
      }
    }
  }

  lemma {:induction false} FetchedFiles(n: Naming, fetch: string -> Fetch, upTo: nat)
    requires WellNamed(n) && upTo <= |n.order|
    ensures forall f :: f in FilesOf(n, fetch, upTo) <==>
              exists j :: 0 <= j < upTo && n.order[j] in n.nameOf && n.nameOf[n.order[j]] == f.name
                  && fetch(n.order[j]) == Got(f.data)
    ensures DistinctNames(FilesOf(n, fetch, upTo))
  {
    if upTo > 0 {
      FetchedFiles(n, fetch, upTo - 1);
      var before, path := FilesOf(n, fetch, upTo - 1), n.order[upTo - 1];
      assert path in n.order;
      forall f <- before ensures f.name != n.nameOf[path] {
        var j :| 0 <= j < upTo - 1 && n.order[j] in n.nameOf && n.nameOf[n.order[j]] == f.name;
      }
      forall k | 0 <= k < |before| ensures before[k].name != n.nameOf[path] {
        assert before[k] in before;
      }
    }
  }

  ghost predicate DistinctNames(files: seq<File>) {
    forall i, j :: 0 <= i < j < |files| ==> files[i].name != files[j].name
  }

  // ------------------------------------------------------------------------------ the verified map

  function Fetched(files: seq<File>): set<string> {
    set f <- files :: f.name
  }

  /** The names whose bytes arrived, in order. */
  function Present(names: seq<string>, fetched: set<string>): seq<string> {
    Select(names, (name: string) => name in fetched)
  }

  lemma PresentMembers(names: seq<string>, fetched: set<string>)
    ensures forall x :: x in Present(names, fetched) <==> x in names && x in fetched
  {
    SelectMembers(names, (name: string) => name in fetched);
  }

  /** Transactions with a proof in the archive, each with those of its proofs that are there. */
  ghost predicate IsVerified(byTxn: map<int, seq<string>>, fetched: set<string>, verified: map<int, seq<string>>) {
    && (forall id <- verified :: id in byTxn && verified[id] == Present(byTxn[id], fetched))
    && (forall id <- byTxn :: id in verified <==> Present(byTxn[id], fetched) != [])
  }

  method KeepPresent(names: seq<string>, fetched: set<string>) returns (there: seq<string>)
    ensures there == Present(names, fetched)
  {
    there := [];
    for i := 0 to |names|
      invariant there == Present(names[..i], fetched)
    {
      assert names[..i + 1] == names[..i] + [names[i]];
      SelectSnoc(names[..i], names[i], (name: string) => name in fetched);
      if names[i] in fetched {
        there := there + [names[i]];
      }
    }
    assert names[..|names|] == names;
  }

  method VerifyProofs(docs: seq<Documents>, byTxn: map<int, seq<string>>, files: seq<File>)
    returns (verified: map<int, seq<string>>)
    requires forall id <- byTxn :: exists m :: 0 <= m < |docs| && docs[m].id == id
    ensures IsVerified(byTxn, Fetched(files), verified)
  {
    verified := map[];
    for m := 0 to |docs|
      invariant forall id <- verified :: id in byTxn && verified[id] == Present(byTxn[id], Fetched(files))
      invariant forall l ::
                0 <= l < m && docs[l].id in byTxn && Present(byTxn[docs[l].id], Fetched(files)) != []
                ==> docs[l].id in verified
      invariant forall id <- verified :: Present(byTxn[id], Fetched(files)) != []
    {
      var id := docs[m].id;
      if id !in byTxn {
        continue;
      }
      var there := KeepPresent(byTxn[id], Fetched(files));
      if there != [] {
        verified := verified[id := there];
      }
    }
  }

  // ------------------------------------------------------------------------------ paths in the ZIP

  const ROOT := "proof_of_transaction"

  /** Proofs of a transaction that has several sit in its folder. */
  function RelPath(folders: map<string, string>, name: string): string {
    (if name in folders then ROOT + "/" + folders[name] else ROOT) + ("/" + name)
  }

  /** A transaction of the batch with several proofs. */
  ghost predicate Bundled(docs: seq<Documents>, txns: map<int, Txn>, id: int) {
    id in txns && exists d <- docs :: d.id == id && |d.paths| > 1
  }

  ghost predicate InBundle(docs: seq<Documents>, txns: map<int, Txn>, byTxn: map<int, seq<string>>, id: int,
                           name: string)
  {
    Bundled(docs, txns, id) && id in byTxn && name in byTxn[id]
  }

  /** Every proof of a bundle has a folder, and a folder is that of some bundle its proof is in. */
  ghost predicate FoldersFit(docs: seq<Documents>, txns: map<int, Txn>, byTxn: map<int, seq<string>>,
                             folders: map<string, string>)
  {
    && (forall id, name :: InBundle(docs, txns, byTxn, id, name) ==> name in folders)
    && (forall name <- folders ::
          exists id :: InBundle(docs, txns, byTxn, id, name) && folders[name] == Folder(txns[id]))
  }

  lemma SomeoneIsLeft(left: set<int>)
    requires left != {}
    ensures exists id :: id in left
  {
    assert !(forall id :: id !in left) by {
      assert (forall id :: id !in left) ==> left == {};
    }
  }

  /** The bundles are gone through in no particular order; a proof of two of them gets the folder of the later one. */
  method AssignFolders(docs: seq<Documents>, txns: map<int, Txn>, byTxn: map<int, seq<string>>)
    returns (folders: map<string, string>)
    requires forall d <- docs :: d.id in txns ==> d.id in byTxn
    ensures FoldersFit(docs, txns, byTxn, folders)
  {
    folders := map[];
    var left: set<int> := set d <- docs | d.id in txns && |d.paths| > 1 :: d.id;
    while left != {}
      invariant forall id <- left :: Bundled(docs, txns, id) && id in byTxn
      invariant forall id, name :: InBundle(docs, txns, byTxn, id, name) && id !in left ==> name in folders
      invariant forall name <- folders ::
                  exists id :: InBundle(docs, txns, byTxn, id, name) && folders[name] == Folder(txns[id])
      decreases |left|
    {
      SomeoneIsLeft(left);
      var id :| id in left;
      var names := byTxn[id];
      ghost var before := folders;
      for i := 0 to |names|
        invariant forall name :: name in folders <==> name in before || name in names[..i]
        invariant forall name <- folders ::
                    folders[name] == if name in names[..i] then Folder(txns[id]) else before[name]
      {
        assert names[..i + 1] == names[..i] + [names[i]];
        folders := folders[names[i] := Folder(txns[id])];
      }
      assert names[..|names|] == names;
      forall name <- folders
        ensures exists b :: InBundle(docs, txns, byTxn, b, name) && folders[name] == Folder(txns[b])
      {
        if name in names {
          assert InBundle(docs, txns, byTxn, id, name);
        } else {
          var b :| InBundle(docs, txns, byTxn, b, name) && before[name] == Folder(txns[b]);
        }
      }
      left := left - {id};
    }
  }

  method WriteProofs(files: seq<File>, folders: map<string, string>) returns (entries: seq<File>)
    ensures |entries| == |files|
    ensures forall i :: 0 <= i < |files| ==> entries[i] == File(RelPath(folders, files[i].name), files[i].data)
  {
    entries := [];
    for i := 0 to |files|
      invariant |entries| == i
      invariant forall j :: 0 <= j < i ==> entries[j] == File(RelPath(folders, files[j].name), files[j].data)
    {
      entries := entries + [File(RelPath(folders, files[i].name), files[i].data)];
    }
  }

  lemma RelPathsDistinct(folders: map<string, string>, x: string, y: string)
    requires NoSlash(x) && NoSlash(y) && RelPath(folders, x) == RelPath(folders, y)
    ensures x == y
  {
    LastSegmentTells('/', if x in folders then ROOT + "/" + folders[x] else ROOT, x,
                     if y in folders then ROOT + "/" + folders[y] else ROOT, y);
  }

  lemma {:induction false} StemHasNoSlash(base: string)
    requires NoSlash(base)
    ensures NoSlash(Stem(base))
  {
    if '.' in base && base[|base| - 1] != '.' {
      StemHasNoSlash(base[..|base| - 1]);
    }
  }

  /** Sanitised parts give sanitised names, numbered or not. */
  lemma MintedHasNoSlash(name: string, base: string, ext: string, used: set<string>)
    requires NoSlash(base) && NoSlash(ext) && IsMinted(name, base, Numbered(base, ext), used)
    ensures NoSlash(name)
  {
    if base in used {
      var k :| FirstFree(Numbered(base, ext), used, k) && name == Numbered(base, ext)(k);
      StemHasNoSlash(base);
      forall i | 0 <= i < |Digits(k)| ensures Digits(k)[i] != '/' {
        assert IsDigit(Digits(k)[i]);
      }
    }
  }

  lemma NamesHaveNoSlash(docs: seq<Documents>, txns: map<int, Txn>, n: Naming, path: string)
    requires NamesFit(docs, txns, n) && path in n.nameOf
    ensures NoSlash(n.nameOf[path])
  {
    assert path in n.order;
    var i :| 0 <= i < |n.order| && n.order[i] == path;
    assert NamedByFirst(docs, txns, n, i);
    var m :| 0 <= m < |docs| && Lists(docs[m], txns, path)
             && var base := Prefix(txns[docs[m].id]) + Extension(path);
                IsMinted(n.nameOf[path], base, Numbered(base, Extension(path)), UsedBy(n, i));
    PrefixHasNoSlash(txns[docs[m].id]);
    ExtensionHasNoSlash(path);
    MintedHasNoSlash(n.nameOf[path], Prefix(txns[docs[m].id]) + Extension(path), Extension(path), UsedBy(n, i));
  }

  // --------------------------------------------------------------------------- what an auditor finds

  /**
   The archive as built: names, fetched files, failures, verified map, folders and entries, in the order they
   are made.
   */
  datatype Archive = Archive(
    naming: Naming,
    byTxn: map<int, seq<string>>,
    files: seq<File>,
    failures: map<string, Failure>,
    verified: map<int, seq<string>>,
    folders: map<string, string>,
    entries: seq<File>
  )

  ghost predicate IsArchive(docs: seq<Documents>, txns: map<int, Txn>, fetch: string -> Fetch, a: Archive) {
    && NamesFit(docs, txns, a.naming) && Noted(docs, txns, a.naming, a.byTxn, |docs|)
    && a.files == FilesOf(a.naming, fetch, |a.naming.order|)
    && AreFailures(a.naming, fetch, |a.naming.order|, a.failures)
    && IsVerified(a.byTxn, Fetched(a.files), a.verified)
    && FoldersFit(docs, txns, a.byTxn, a.folders)
    && |a.entries| == |a.files|
    && forall i :: 0 <= i < |a.files| ==> a.entries[i] == File(RelPath(a.folders, a.files[i].name), a.files[i].data)
  }

  method BuildArchive(docs: seq<Documents>, txns: map<int, Txn>, fetch: string -> Fetch) returns (a: Archive)
    requires IdsDistinct(docs)
    ensures IsArchive(docs, txns, fetch, a)
  {
    var naming, byTxn := NameProofs(docs, txns);
    var files, failures := FetchAll(naming, fetch);
    assert forall id <- byTxn :: HasDocuments(docs, txns, |docs|, id);
    var verified := VerifyProofs(docs, byTxn, files);
    assert NamesNoted(docs, txns, naming, byTxn, |docs|);
    var folders := AssignFolders(docs, txns, byTxn);
    var entries := WriteProofs(files, folders);
    a := Archive(naming, byTxn, files, failures, verified, folders, entries);
  }

  /**
   A proof of a transaction that has several lies in that transaction's folder, unless another such transaction
   lists it too; a proof that is in no bundle lies at the top.
   */
  lemma BundlesLieTogether(docs: seq<Documents>, txns: map<int, Txn>, fetch: string -> Fetch, a: Archive, id: int,
                           name: string)
    requires IsArchive(docs, txns, fetch, a) && id in txns && id in a.byTxn && name in a.byTxn[id]
    ensures Bundled(docs, txns, id) && (forall other :: InBundle(docs, txns, a.byTxn, other, name) ==> other == id)
            ==> RelPath(a.folders, name) == ROOT + "/" + Folder(txns[id]) + ("/" + name)
    ensures (forall other :: !InBundle(docs, txns, a.byTxn, other, name))
            ==> RelPath(a.folders, name) == ROOT + ("/" + name)
  {
    if Bundled(docs, txns, id) {
      assert InBundle(docs, txns, a.byTxn, id, name);
    }
  }

  /** No two proofs are written to one place, whatever folders they are put in. */
  lemma EntriesAreDistinct(docs: seq<Documents>, txns: map<int, Txn>, fetch: string -> Fetch, a: Archive)
    requires IsArchive(docs, txns, fetch, a)
    ensures DistinctNames(a.entries)
  {
    FetchedFiles(a.naming, fetch, |a.naming.order|);
    forall i, j | 0 <= i < j < |a.entries| ensures a.entries[i].name != a.entries[j].name {
      FileHasNoSlash(docs, txns, fetch, a, a.files[i]);
      FileHasNoSlash(docs, txns, fetch, a, a.files[j]);
      if a.entries[i].name == a.entries[j].name {
        RelPathsDistinct(a.folders, a.files[i].name, a.files[j].name);
      }
    }
  }

  lemma FileHasNoSlash(docs: seq<Documents>, txns: map<int, Txn>, fetch: string -> Fetch, a: Archive, f: File)
    requires NamesFit(docs, txns, a.naming)
    requires f in FilesOf(a.naming, fetch, |a.naming.order|)
    ensures NoSlash(f.name)
  {
    FetchedFiles(a.naming, fetch, |a.naming.order|);
    var j :| 0 <= j < |a.naming.order| && a.naming.order[j] in a.naming.nameOf
        && a.naming.nameOf[a.naming.order[j]] == f.name;
    NamesHaveNoSlash(docs, txns, a.naming, a.naming.order[j]);
  }

  lemma {:induction false} NamesOfMembers(n: Naming, paths: seq<string>)
    requires forall p <- paths :: p in n.nameOf
    ensures forall x :: x in NamesOf(n, paths) <==> exists p <- paths :: n.nameOf[p] == x
  {
    if paths != [] {
      assert paths[|paths| - 1] in paths;
      NamesOfMembers(n, paths[..|paths| - 1]);
      assert paths == paths[..|paths| - 1] + [paths[|paths| - 1]];
    }
  }

  lemma FetchedPathIsFiled(n: Naming, fetch: string -> Fetch, path: string)
    requires WellNamed(n) && path in n.nameOf && fetch(path).Got?
    ensures File(n.nameOf[path], fetch(path).data) in FilesOf(n, fetch, |n.order|)
  {
    FetchedFiles(n, fetch, |n.order|);
    assert path in n.order;
    var j :| 0 <= j < |n.order| && n.order[j] == path;
  }

  lemma FileIsWritten(files: seq<File>, entries: seq<File>, folders: map<string, string>, f: File)
    requires |entries| == |files| && f in files
    requires forall i :: 0 <= i < |files| ==> entries[i] == File(RelPath(folders, files[i].name), files[i].data)
    ensures f.name in Fetched(files) && File(RelPath(folders, f.name), f.data) in entries
  {
    var i :| 0 <= i < |files| && files[i] == f;
    assert entries[i] in entries;
  }

  /** A stored proof of a transaction that could be fetched is listed for it, and its own bytes are behind its link. */
  lemma FetchedProofIsThere(docs: seq<Documents>, txns: map<int, Txn>, fetch: string -> Fetch, a: Archive,
                            m: nat, path: string)
    requires IsArchive(docs, txns, fetch, a) && m < |docs| && Lists(docs[m], txns, path) && fetch(path).Got?
    ensures path in a.naming.nameOf && docs[m].id in a.verified && a.naming.nameOf[path] in a.verified[docs[m].id]
    ensures File(RelPath(a.folders, a.naming.nameOf[path]), fetch(path).data) in a.entries
  {
    FetchedPathIsFiled(a.naming, fetch, path);
    FileIsWritten(a.files, a.entries, a.folders, File(a.naming.nameOf[path], fetch(path).data));
    NamesOfMembers(a.naming, docs[m].paths);
    PresentMembers(a.byTxn[docs[m].id], Fetched(a.files));
    assert a.naming.nameOf[path] in Present(a.byTxn[docs[m].id], Fetched(a.files));
  }

  /** And nothing else is listed: every verified name leads to the bytes of a proof stored for that transaction. */
  lemma EveryLinkOpensItsProof(docs: seq<Documents>, txns: map<int, Txn>, fetch: string -> Fetch, a: Archive,
                               id: int, name: string)
    requires IsArchive(docs, txns, fetch, a) && id in a.verified && name in a.verified[id]
    ensures exists m, path ::
            0 <= m < |docs| && docs[m].id == id && Lists(docs[m], txns, path)
            && path in a.naming.nameOf
              && a.naming.nameOf[path] == name && fetch(path).Got?
              && File(RelPath(a.folders, name), fetch(path).data) in a.entries
  {
    assert HasDocuments(docs, txns, |docs|, id);
    var m :| 0 <= m < |docs| && docs[m].id == id;
    PresentMembers(a.byTxn[id], Fetched(a.files));
    NamesOfMembers(a.naming, docs[m].paths);
    var path :| path in docs[m].paths && a.naming.nameOf[path] == name;
    var f :| f in a.files && f.name == name;
    FetchedFiles(a.naming, fetch, |a.naming.order|);
    var j :| 0 <= j < |a.naming.order| && a.naming.order[j] in a.naming.nameOf
        && a.naming.nameOf[a.naming.order[j]] == name
             && fetch(a.naming.order[j]) == Got(f.data);
    assert a.naming.order[j] == path;
    FetchedProofIsThere(docs, txns, fetch, a, m, path);
  }

  // ------------------------------------------------------------------------------- the proof tally

  datatype Status = Matched | Linked | PendingReview | Ignored | Excluded | Other

  datatype Row = Row(id: Option<int>, status: Status)

  /** The line of the tally a row is counted under. */
  datatype Slot =
    | WithProof
    | MatchedNoFile
    | LinkedToTransfer
    | InReview
    | NoDocument
    | NoReceiptNeeded
    | RejectedAtImport

  predicate HasProof(r: Row, verified: map<int, seq<string>>) {
    r.id.Some? && r.id.value in verified && verified[r.id.value] != []
  }

  /** Having a proof comes first; a row without one is counted by its status. */
  function SlotOf(r: Row, verified: map<int, seq<string>>): Slot {
    if HasProof(r, verified) then WithProof
    else match r.status
      case Matched => MatchedNoFile
      case Linked => LinkedToTransfer
      case PendingReview => InReview
      case Ignored => NoReceiptNeeded
      case Excluded => RejectedAtImport
      case Other => NoDocument
  }

  function CountOf(rows: seq<Row>, verified: map<int, seq<string>>, s: Slot): nat {
    if rows == [] then 0
    else CountOf(rows[..|rows| - 1], verified, s) + if SlotOf(rows[|rows| - 1], verified) == s then 1 else 0
  }

  lemma {:induction false} CountOfIsCount(rows: seq<Row>, verified: map<int, seq<string>>, s: Slot, p: Row -> bool)
    requires forall r <- rows :: SlotOf(r, verified) == s <==> p(r)
    ensures CountOf(rows, verified, s) == Count(rows, p)
  {
    if rows != [] {
      var n := |rows| - 1;
      LastApart(rows);
      assert rows[n] in rows && forall r <- rows[..n] :: r in rows;
      CountOfIsCount(rows[..n], verified, s, p);
      SelectSnoc(rows[..n], rows[n], p);
    }
  }

  /** A row without a proof and with this status. */
  predicate Unproved(r: Row, verified: map<int, seq<string>>, status: Status) {
    r.status == status && (r.id.None? || r.id.value !in verified || verified[r.id.value] == [])
  }

  function Unproven(rows: seq<Row>, verified: map<int, seq<string>>, status: Status): nat {
    Count(rows, (r: Row) => Unproved(r, verified, status))
  }

  /** Each line counts rows by their own fields: those with a proof, and those without one by their status. */
  ghost predicate IsTally(counts: map<Slot, nat>, rows: seq<Row>, verified: map<int, seq<string>>) {
    && (forall s: Slot :: s in counts)
    && counts[WithProof] == Count(rows, (r: Row) => r.id.Some? && r.id.value in verified && verified[r.id.value] != [])
    && counts[MatchedNoFile] == Unproven(rows, verified, Matched)
    && counts[LinkedToTransfer] == Unproven(rows, verified, Linked)
    && counts[InReview] == Unproven(rows, verified, PendingReview)
    && counts[NoDocument] == Unproven(rows, verified, Other)
    && counts[NoReceiptNeeded] == Unproven(rows, verified, Ignored)
    && counts[RejectedAtImport] == Unproven(rows, verified, Excluded)
  }

  lemma LineMeans(rows: seq<Row>, verified: map<int, seq<string>>, s: Slot, status: Status)
    requires (s, status) in {(MatchedNoFile, Matched), (LinkedToTransfer, Linked), (InReview, PendingReview),
                             (NoDocument, Other), (NoReceiptNeeded, Ignored), (RejectedAtImport, Excluded)}
    ensures CountOf(rows, verified, s) == Unproven(rows, verified, status)
  {
    CountOfIsCount(rows, verified, s, (r: Row) => Unproved(r, verified, status));
  }

  lemma TallyMeans(counts: map<Slot, nat>, rows: seq<Row>, verified: map<int, seq<string>>)
    requires forall s: Slot :: s in counts && counts[s] == CountOf(rows, verified, s)
    ensures IsTally(counts, rows, verified)
  {
    CountOfIsCount(rows, verified, WithProof,
                   (r: Row) => r.id.Some? && r.id.value in verified && verified[r.id.value] != []);
    LineMeans(rows, verified, MatchedNoFile, Matched);
    LineMeans(rows, verified, LinkedToTransfer, Linked);
    LineMeans(rows, verified, InReview, PendingReview);
    LineMeans(rows, verified, NoDocument, Other);
    LineMeans(rows, verified, NoReceiptNeeded, Ignored);
    LineMeans(rows, verified, RejectedAtImport, Excluded);
  }

  method TallyProofs(rows: seq<Row>, verified: map<int, seq<string>>)
    returns (counts: map<Slot, nat>, reconcilable: int)
    ensures forall s: Slot :: s in counts && counts[s] == CountOf(rows, verified, s)
    ensures IsTally(counts, rows, verified)
    ensures reconcilable == |rows| - Unproven(rows, verified, Ignored) - Unproven(rows, verified, Excluded)
  {
    counts := map[WithProof := 0, MatchedNoFile := 0, LinkedToTransfer := 0, InReview := 0, NoDocument := 0,
                  NoReceiptNeeded := 0, RejectedAtImport := 0];
    forall s: Slot ensures s in counts && counts[s] == 0 {
      match s {
        case WithProof => case MatchedNoFile => case LinkedToTransfer => case InReview =>
        case NoDocument => case NoReceiptNeeded => case RejectedAtImport =>
      }
    }
    for i := 0 to |rows|
      invariant forall s: Slot :: s in counts && counts[s] == CountOf(rows[..i], verified, s)
    {
      assert rows[..i + 1][..i] == rows[..i];
      var slot := SlotOf(rows[i], verified);
      counts := counts[slot := counts[slot] + 1];
    }
    assert rows[..|rows|] == rows;
    TallyMeans(counts, rows, verified);
    reconcilable := |rows| - counts[NoReceiptNeeded] - counts[RejectedAtImport];
  }

  /**
   Every row is on exactly one line, and the rows that need a proof are those that are neither exempt nor
   rejected.
   */
  lemma {:induction false} TallyCoversEveryRow(rows: seq<Row>, verified: map<int, seq<string>>)
    ensures CountOf(rows, verified, WithProof) + CountOf(rows, verified, MatchedNoFile)
            + CountOf(rows, verified, LinkedToTransfer) + CountOf(rows, verified, InReview)
            + CountOf(rows, verified, NoDocument) + CountOf(rows, verified, NoReceiptNeeded)
            + CountOf(rows, verified, RejectedAtImport) == |rows|
  {
    if rows != [] {
      TallyCoversEveryRow(rows[..|rows| - 1], verified);
    }
  }

  /** Matched rows the README lists as having no proof. */
  predicate IsMissing(r: Row, verified: map<int, seq<string>>) {
    r.status == Matched && !(r.id.Some? && r.id.value in verified)
  }

  function Missing(rows: seq<Row>, verified: map<int, seq<string>>): seq<Row> {
    if rows == [] then []
    else
      var before, last := Missing(rows[..|rows| - 1], verified), rows[|rows| - 1];
      if IsMissing(last, verified) then before + [last] else before
  }

  /**
   What the README says of a row it lists: there never was a file, or why its files are not there, each cause
   once.
   */
  datatype Cause = NoMatchRecord | NotThere(reasons: seq<Failure>)

  datatype MissingRow = MissingRow(row: Row, cause: Cause)

  /** The stored paths of a transaction; none when it has no entry. */
  function PathsOf(docs: seq<Documents>, id: Option<int>): seq<string> {
    if docs == [] || id.None? then []
    else if docs[|docs| - 1].id == id.value then docs[|docs| - 1].paths
    else PathsOf(docs[..|docs| - 1], id)
  }

  /** A path whose failure was not noted is blank, or names a file that is gone. */
  function WhyGone(path: string, failures: map<string, Failure>): Failure {
    if path in failures then failures[path]
    else if StripEnd(StripStart(path, WHITE), WHITE) == "" then NoPathOnRecord
    else FileGone
  }

  /** A path without a noted failure is reported as gone, unless there is nothing on it but white space. */
  lemma FallbackReason(path: string, failures: map<string, Failure>)
    requires path !in failures
    ensures WhyGone(path, failures) ==
            if AllIn(path, {' ', '\t', '\n', '\r', '\U{000b}', '\U{000c}'}) then NoPathOnRecord else FileGone
  {
    var front, back := StripsBothEnds(path, WHITE);
    if AllIn(path, WHITE) {
      StripsAway(path, WHITE);
    }
    if StripEnd(StripStart(path, WHITE), WHITE) == "" {
      assert path == front + back;
      assert AllIn(path, WHITE);
    }
  }

  function ReasonsFor(paths: seq<string>, failures: map<string, Failure>): seq<Failure> {
    if paths == [] then []
    else
      var before, last := ReasonsFor(paths[..|paths| - 1], failures), WhyGone(paths[|paths| - 1], failures);
      if last in before then before else before + [last]
  }

  function CauseFor(paths: seq<string>, failures: map<string, Failure>): Cause {
    if paths == [] then NoMatchRecord else NotThere(ReasonsFor(paths, failures))
  }

  method CollectReasons(paths: seq<string>, failures: map<string, Failure>) returns (reasons: seq<Failure>)
    ensures reasons == ReasonsFor(paths, failures)
  {
    reasons := [];
    for i := 0 to |paths|
      invariant reasons == ReasonsFor(paths[..i], failures)
    {
      assert paths[..i + 1][..i] == paths[..i];
      var reason := WhyGone(paths[i], failures);
      if reason !in reasons {
        reasons := reasons + [reason];
      }
    }
    assert paths[..|paths|] == paths;
  }

  method MissingProofRows(rows: seq<Row>, verified: map<int, seq<string>>, docs: seq<Documents>,
                          failures: map<string, Failure>)
    returns (missing: seq<MissingRow>)
    ensures |missing| == |Missing(rows, verified)|
    ensures forall i :: 0 <= i < |missing| ==>
              && missing[i].row == Missing(rows, verified)[i]
              && missing[i].cause == CauseFor(PathsOf(docs, missing[i].row.id), failures)
  {
    missing := [];
    for i := 0 to |rows|
      invariant |missing| == |Missing(rows[..i], verified)|
      invariant forall j :: 0 <= j < |missing| ==>
                  && missing[j].row == Missing(rows[..i], verified)[j]
                  && missing[j].cause == CauseFor(PathsOf(docs, missing[j].row.id), failures)
    {
      assert rows[..i + 1][..i] == rows[..i];
      if rows[i].status != Matched {
        continue;
      }
      if rows[i].id.Some? && rows[i].id.value in verified {
        continue;
      }
      var paths := PathsOf(docs, rows[i].id);
      if paths == [] {
        missing := missing + [MissingRow(rows[i], NoMatchRecord)];
        continue;
      }
      var reasons := CollectReasons(paths, failures);
      missing := missing + [MissingRow(rows[i], NotThere(reasons))];
    }
    assert rows[..|rows|] == rows;
  }

  lemma {:induction false} ReasonsAreWhys(paths: seq<string>, failures: map<string, Failure>)
    ensures forall why :: why in ReasonsFor(paths, failures) <==> exists p <- paths :: WhyGone(p, failures) == why
    ensures forall i, j ::
            0 <= i < j < |ReasonsFor(paths, failures)|
            ==> ReasonsFor(paths, failures)[i] != ReasonsFor(paths, failures)[j]
  {
    if paths != [] {
      var n := |paths| - 1;
      ReasonsAreWhys(paths[..n], failures);
      assert paths == paths[..n] + [paths[n]];
      forall why ensures why in ReasonsFor(paths, failures) <==> exists p <- paths :: WhyGone(p, failures) == why {
        if p :| p in paths && WhyGone(p, failures) == why {
          assert p in paths[..n] || p == paths[n];
        }
        if why in ReasonsFor(paths[..n], failures) {
          var p :| p in paths[..n] && WhyGone(p, failures) == why;
          assert p in paths;
        }
        assert paths[n] in paths;
      }
    }
  }

  lemma {:induction false} PathsOfDocument(docs: seq<Documents>, id: int, m: nat)
    requires IdsDistinct(docs) && m < |docs| && docs[m].id == id
    ensures PathsOf(docs, Some(id)) == docs[m].paths
  {
    if m < |docs| - 1 {
      PathsOfDocument(docs[..|docs| - 1], id, m);
    }
  }

  /**
   For the archive's own maps the README tells the truth: a listed row of the batch that has stored paths lost every
   one of them, and the reasons printed are exactly those the store gave for them, each once.
   */
  lemma PrintedReasonsAreTrue(docs: seq<Documents>, txns: map<int, Txn>, fetch: string -> Fetch, a: Archive, r: Row,
                              m: nat)
    requires IsArchive(docs, txns, fetch, a) && IdsDistinct(docs) && IsMissing(r, a.verified)
    requires m < |docs| && r.id == Some(docs[m].id) && docs[m].id in txns && docs[m].paths != []
    ensures CauseFor(PathsOf(docs, r.id), a.failures).NotThere?
    ensures forall p <- docs[m].paths :: fetch(p).Gone?
    ensures forall why ::
            why in CauseFor(PathsOf(docs, r.id), a.failures).reasons
            <==> exists p <- docs[m].paths :: fetch(p) == Gone(why)
  {
    PathsOfDocument(docs, docs[m].id, m);
    ReasonsAreWhys(docs[m].paths, a.failures);
    assert NamesNoted(docs, txns, a.naming, a.byTxn, |docs|);
    forall p <- docs[m].paths ensures fetch(p) == Gone(WhyGone(p, a.failures)) {
      if fetch(p).Got? {
        FetchedProofIsThere(docs, txns, fetch, a, m, p);
        assert false;
      }
      assert p in a.naming.nameOf && p in a.naming.order;
      var j :| 0 <= j < |a.naming.order| && a.naming.order[j] == p;
    }
  }

  /** A matched row noted with an empty list of proofs: in the map, but without a proof. */
  predicate IsHollow(r: Row, verified: map<int, seq<string>>) {
    r.status == Matched && r.id.Some? && r.id.value in verified && verified[r.id.value] == []
  }

  predicate NoneHollow(rows: seq<Row>, verified: map<int, seq<string>>) {
    forall r <- rows :: !IsHollow(r, verified)
  }

  /** The README's list is as long as the tally says exactly when no matched row is noted with nothing. */
  lemma {:induction false} ListMatchesTally(rows: seq<Row>, verified: map<int, seq<string>>)
    ensures |Missing(rows, verified)| <= CountOf(rows, verified, MatchedNoFile)
    ensures |Missing(rows, verified)| == CountOf(rows, verified, MatchedNoFile) <==> NoneHollow(rows, verified)
  {
    if rows != [] {
      var before, last := rows[..|rows| - 1], rows[|rows| - 1];
      ListMatchesTally(before, verified);
      assert rows == before + [last];
      assert NoneHollow(rows, verified) <==> NoneHollow(before, verified) && !IsHollow(last, verified);
    }
  }

  /** The archive's own map notes nobody with nothing, so for every batch the list and the tally agree. */
  lemma ArchiveListMatchesTally(docs: seq<Documents>, txns: map<int, Txn>, fetch: string -> Fetch, a: Archive,
                                rows: seq<Row>)
    requires IsArchive(docs, txns, fetch, a)
    ensures |Missing(rows, a.verified)| == CountOf(rows, a.verified, MatchedNoFile)
  {
    ListMatchesTally(rows, a.verified);
    forall r <- rows ensures !IsHollow(r, a.verified) {
      if r.id.Some? {
        var id: int := r.id.value;
        assert id in a.verified ==> id in a.byTxn && a.verified[id] != [];
      }
    }
  }
}
