// Comparing two trees a graph holds: the walk that skips what has not moved,
// and the sorted list of changed files it is turned into.

module Diff {
  import opened Basics
  import opened Sorting
  import opened Git
  import opened Graph
  import opened Paths

  datatype Kind = Added | Modified | Deleted

  /** One entry the comparison reached, and how it changed. */
  datatype Visit = Visit(kind: Kind, entry: Entry, path: Path)

  // ----- The walk -----

  predicate Resolves(trees: set<Hash>, h: Hash) {
    h == Zero || (h in trees && IsTree(h))
  }

  function Listed(h: Hash): seq<Entry> {
    if IsTree(h) then h.obj.entries else []
  }

  /** The visits a comparison makes: entries that differ, and what lies below
      them, equal hashes being passed over. None means a tree it had to read is
      not held. */
  function Compare(trees: set<Hash>, was: Hash, now: Hash, prefix: Path): Option<seq<Visit>>
    decreases now
  {
    if was == now then Some([])
    else if !Resolves(trees, was) || !Resolves(trees, now) then None
    else
      match if IsTree(now) then CompareAll(trees, Listed(was), now.obj.entries, prefix) else Some([])
      case None => None
      case Some(changed) =>
        match Gone(trees, Listed(was), Listed(now), prefix)
        case None => None
        case Some(gone) => Some(changed + gone)
  }

  // The newer list's entries, each against the older's of its name.
  function CompareAll(trees: set<Hash>, was: seq<Entry>, now: seq<Entry>, prefix: Path): Option<seq<Visit>>
    decreases now
  {
    if now == [] then Some([])
    else
      match CompareOne(trees, ByName(was, now[0].name), now[0], prefix + [now[0].name])
      case None => None
      case Some(first) =>
        match CompareAll(trees, was, now[1..], prefix)
        case None => None
        case Some(rest) => Some(first + rest)
  }

  function CompareOne(trees: set<Hash>, before: Option<Entry>, e: Entry, path: Path): Option<seq<Visit>>
    decreases e, 0
  {
    if before.None? then Whole(trees, Added, e, path)
    else if before.value.hash == e.hash && before.value.mode == e.mode then Some([])
    else if before.value.mode.Dir? != e.mode.Dir? then
      match Whole(trees, Deleted, before.value, path)
      case None => None
      case Some(left) =>
        match Whole(trees, Added, e, path)
        case None => None
        case Some(came) => Some(left + came)
    else if !e.mode.Dir? then Some([Visit(Modified, e, path)])
    else
      match Compare(trees, before.value.hash, e.hash, path)
      case None => None
      case Some(below) => Some([Visit(Modified, e, path)] + below)
  }

  // What the older list held under names the newer does not use.
  function Gone(trees: set<Hash>, was: seq<Entry>, now: seq<Entry>, prefix: Path): Option<seq<Visit>> {
    if was == [] then Some([])
    else
      var first := if ByName(now, was[0].name).Some? then Some([])
                   else Whole(trees, Deleted, was[0], prefix + [was[0].name]);
      if first.None? then None
      else
        match Gone(trees, was[1..], now, prefix)
        case None => None
        case Some(rest) => Some(first.value + rest)
  }

  /** One entry and everything beneath it, all reported as the same thing. */
  function Whole(trees: set<Hash>, kind: Kind, e: Entry, path: Path): Option<seq<Visit>>
    decreases e, 0
  {
    if !e.mode.Dir? then Some([Visit(kind, e, path)])
    else if e.hash !in trees || !IsTree(e.hash) then None
    else
      match WholeAll(trees, kind, e.hash.obj.entries, path)
      case None => None
      case Some(below) => Some([Visit(kind, e, path)] + below)
  }

  function WholeAll(trees: set<Hash>, kind: Kind, es: seq<Entry>, prefix: Path): Option<seq<Visit>>
    decreases es
  {
    if es == [] then Some([])
    else
      match Whole(trees, kind, es[0], prefix + [es[0].name])
      case None => None
      case Some(first) =>
        match WholeAll(trees, kind, es[1..], prefix)
        case None => None
        case Some(rest) => Some(first + rest)
  }

  // ----- What it should have found -----

  // The file entry at q beneath an entry, the entry itself when it is a file.
  function Below(e: Option<Entry>, q: Path): Option<Entry> {
    if e.None? then None
    else if e.value.mode.Dir? then LeafAt(e.value.hash, q)
    else if q == [] then e else None
  }

  /** How two leaf maps differ at one path. */
  function Differ(a: Option<Entry>, b: Option<Entry>): Option<(Kind, Entry)> {
    if a == b then None
    else if a.None? then Some((Added, b.value))
    else if b.None? then Some((Deleted, a.value))
    else Some((Modified, b.value))
  }

  predicate IsFile(v: Visit) {
    !v.entry.mode.Dir?
  }

  // No file path is visited twice.
  ghost predicate Once(vs: seq<Visit>) {
    forall i, j :: 0 <= i < j < |vs| && IsFile(vs[i]) && IsFile(vs[j]) ==> vs[i].path != vs[j].path
  }

  /** The file visits of vs are, path by path, the differences between what lies
      beneath a and what lies beneath b, with at leading to both. */
  ghost predicate Reports(vs: seq<Visit>, at: Path, a: Option<Entry>, b: Option<Entry>) {
    && Once(vs)
    && (forall v :: v in vs && IsFile(v) ==>
          at <= v.path && Differ(Below(a, v.path[|at|..]), Below(b, v.path[|at|..])) == Some((v.kind, v.entry)))
    && (forall q :: Differ(Below(a, q), Below(b, q)).Some? ==>
          var d := Differ(Below(a, q), Below(b, q)).value; Visit(d.0, d.1, at + q) in vs)
  }

  // The same of two lists, for the names in names alone.
  ghost predicate ReportsNames(vs: seq<Visit>, at: Path, was: seq<Entry>, now: seq<Entry>, names: set<string>) {
    && Once(vs)
    && (forall v :: v in vs && IsFile(v) ==>
          && at < v.path && v.path[|at|] in names
          && Differ(Below(ByName(was, v.path[|at|]), v.path[|at| + 1..]),
                    Below(ByName(now, v.path[|at|]), v.path[|at| + 1..])) == Some((v.kind, v.entry)))
    && (forall n, q :: n in names && Differ(Below(ByName(was, n), q), Below(ByName(now, n), q)).Some? ==>
          var d := Differ(Below(ByName(was, n), q), Below(ByName(now, n), q)).value;
          Visit(d.0, d.1, at + [n] + q) in vs)
  }

  lemma ReportsJoin(vs: seq<Visit>, ws: seq<Visit>, at: Path, was: seq<Entry>, now: seq<Entry>, m: set<string>,
        n: set<string>)
    requires ReportsNames(vs, at, was, now, m) && ReportsNames(ws, at, was, now, n) && m !! n
    ensures ReportsNames(vs + ws, at, was, now, m + n)
  {
    var all := vs + ws;
    forall i, j | 0 <= i < j < |all| && IsFile(all[i]) && IsFile(all[j])
      ensures all[i].path != all[j].path
    {
      if i < |vs| <= j {
        assert all[i] in vs && all[j] in ws;
      }
    }
  }

  lemma ReportsOne(vs: seq<Visit>, at: Path, was: seq<Entry>, now: seq<Entry>, n: string)
    requires Reports(vs, at + [n], ByName(was, n), ByName(now, n))
    ensures ReportsNames(vs, at, was, now, {n})
  {
    forall v | v in vs && IsFile(v)
      ensures at < v.path && v.path[|at|] == n && v.path[|at + [n]|..] == v.path[|at| + 1..]
    {
      assert at + [n] <= v.path;
      assert v.path[|at|] == (at + [n])[|at|];
    }
  }

  // ----- What the walk does find -----

  ghost predicate FineEntry(e: Entry) {
    KindMatches(e) && WellFormed(e.hash)
  }

  ghost predicate FineList(es: seq<Entry>) {
    UniqueNames(es) && forall i :: 0 <= i < |es| ==> FineEntry(es[i])
  }

  ghost predicate Missing(kind: Kind, e: Entry, a: Option<Entry>, b: Option<Entry>) {
    (kind == Added && a.None? && b == Some(e)) || (kind == Deleted && a == Some(e) && b.None?)
  }

  // The entries a stands for: a directory's, or none.
  ghost predicate Lists(a: Option<Entry>, es: seq<Entry>) {
    if a.None? then es == [] else a.value.mode.Dir? && Listed(a.value.hash) == es
  }

  // Putting an entry's own visit in front changes nothing for files.
  lemma ReportsTree(vs: seq<Visit>, v: Visit, at: Path, a: Option<Entry>, b: Option<Entry>)
    requires Reports(vs, at, a, b) && !IsFile(v)
    ensures Reports([v] + vs, at, a, b)
  {
  }

  lemma BelowSplit(a: Option<Entry>, es: seq<Entry>, q: Path)
    requires Lists(a, es) && UniqueNames(es)
    ensures Below(a, q) == if q == [] then None else Below(ByName(es, q[0]), q[1..])
  {
    if q != [] {
      ByNameIsFind(es, q[0]);
      assert |q| == 1 <==> q[1..] == [];
    }
  }

  // Reporting every name of two lists is reporting the directories they are.
  lemma NamesReport(vs: seq<Visit>, at: Path, a: Option<Entry>, b: Option<Entry>, was: seq<Entry>, now: seq<Entry>,
        names: set<string>)
    requires Lists(a, was) && Lists(b, now) && UniqueNames(was) && UniqueNames(now)
    requires NamesOf(was) + NamesOf(now) <= names
    requires ReportsNames(vs, at, was, now, names)
    ensures Reports(vs, at, a, b)
  {
    forall v | v in vs && IsFile(v)
      ensures at <= v.path && Differ(Below(a, v.path[|at|..]), Below(b, v.path[|at|..])) == Some((v.kind, v.entry))
    {
      var q := v.path[|at|..];
      BelowSplit(a, was, q);
      BelowSplit(b, now, q);
      assert q[0] == v.path[|at|] && q[1..] == v.path[|at| + 1..];
    }
    forall q | Differ(Below(a, q), Below(b, q)).Some?
      ensures var d := Differ(Below(a, q), Below(b, q)).value; Visit(d.0, d.1, at + q) in vs
    {
      BelowSplit(a, was, q);
      BelowSplit(b, now, q);
      if q[0] !in NamesOf(was) { Unnamed(was, q[0]); }
      if q[0] !in NamesOf(now) { Unnamed(now, q[0]); }
      assert at + [q[0]] + q[1..] == at + q;
    }
  }

  lemma WholeReports(trees: set<Hash>, kind: Kind, e: Entry, path: Path, a: Option<Entry>, b: Option<Entry>)
    requires FineEntry(e) && Missing(kind, e, a, b) && Whole(trees, kind, e, path).Some?
    ensures Reports(Whole(trees, kind, e, path).value, path, a, b)
    decreases e, 0
  {
    if !e.mode.Dir? {
      assert path + [] == path;
      assert path[|path|..] == [];
    } else {
      var es := e.hash.obj.entries;
      var was, now := if kind == Added then [] else es, if kind == Added then es else [];
      forall i | 0 <= i < |es| ensures Missing(kind, es[i], ByName(was, es[i].name), ByName(now, es[i].name)) {
        ByNameIsFind(es, es[i].name);
        FindIsTheOne(es, es[i]);
      }
      WholeAllReports(trees, kind, es, path, was, now);
      var vs := WholeAll(trees, kind, es, path).value;
      NamesReport(vs, path, a, b, was, now, NamesOf(es));
      ReportsTree(vs, Visit(kind, e, path), path, a, b);
    }
  }

  lemma {:induction false} WholeAllReports(trees: set<Hash>, kind: Kind, left: seq<Entry>, prefix: Path,
        was: seq<Entry>, now: seq<Entry>)
    requires FineList(left) && WholeAll(trees, kind, left, prefix).Some?
    requires forall i :: 0 <= i < |left| ==> Missing(kind, left[i], ByName(was, left[i].name), ByName(now, left[i].name))
    ensures ReportsNames(WholeAll(trees, kind, left, prefix).value, prefix, was, now, NamesOf(left))
    decreases left
  {
    if left != [] {
      var n := left[0].name;
      NamesSplit(left);
      WholeReports(trees, kind, left[0], prefix + [n], ByName(was, n), ByName(now, n));
      var first := Whole(trees, kind, left[0], prefix + [n]).value;
      ReportsOne(first, prefix, was, now, n);
      WholeAllReports(trees, kind, left[1..], prefix, was, now);
      ReportsJoin(first, WholeAll(trees, kind, left[1..], prefix).value, prefix, was, now, {n}, NamesOf(left[1..]));
    }
  }

  ghost function Lost(was: seq<Entry>, now: seq<Entry>): set<string> {
    set n | n in NamesOf(was) && ByName(now, n).None?
  }

  lemma {:induction false} GoneReports(trees: set<Hash>, left: seq<Entry>, prefix: Path, was: seq<Entry>,
        now: seq<Entry>)
    requires FineList(left) && Gone(trees, left, now, prefix).Some?
    requires forall i :: 0 <= i < |left| ==> ByName(was, left[i].name) == Some(left[i])
    ensures ReportsNames(Gone(trees, left, now, prefix).value, prefix, was, now, Lost(left, now))
    decreases left
  {
    if left != [] {
      var n := left[0].name;
      NamesSplit(left);
      GoneReports(trees, left[1..], prefix, was, now);
      var rest := Gone(trees, left[1..], now, prefix).value;
      if ByName(now, n).Some? {
        assert Lost(left, now) == Lost(left[1..], now);
        assert [] + rest == rest;
      } else {
        WholeReports(trees, Deleted, left[0], prefix + [n], ByName(was, n), ByName(now, n));
        var first := Whole(trees, Deleted, left[0], prefix + [n]).value;
        ReportsOne(first, prefix, was, now, n);
        ReportsJoin(first, rest, prefix, was, now, {n}, Lost(left[1..], now));
        assert Lost(left, now) == {n} + Lost(left[1..], now);
      }
    }
  }

  lemma CompareOneReports(trees: set<Hash>, before: Option<Entry>, e: Entry, path: Path)
    requires FineEntry(e) && (before.Some? ==> FineEntry(before.value))
    requires before.Some? ==> before.value.name == e.name
    requires CompareOne(trees, before, e, path).Some?
    ensures Reports(CompareOne(trees, before, e, path).value, path, before, Some(e))
    decreases e, 0
  {
    if before.None? {
      WholeReports(trees, Added, e, path, None, Some(e));
    } else if before.value.hash == e.hash && before.value.mode == e.mode {
      assert before == Some(e);
    } else if before.value.mode.Dir? != e.mode.Dir? {
      WholeReports(trees, Deleted, before.value, path, before, None);
      WholeReports(trees, Added, e, path, None, Some(e));
      SwapReports(Whole(trees, Deleted, before.value, path).value, Whole(trees, Added, e, path).value, path, before, Some(e));
    } else if !e.mode.Dir? {
      assert path + [] == path && path[|path|..] == [];
    } else {
      CompareReports(trees, before.value, e, path);
      ReportsTree(Compare(trees, before.value.hash, e.hash, path).value, Visit(Modified, e, path), path, before, Some(e));
    }
  }

  // A file in place of a directory, or the reverse: the two sides' leaf paths
  // are disjoint, so both sets of visits count.
  lemma SwapReports(vs: seq<Visit>, ws: seq<Visit>, at: Path, a: Option<Entry>, b: Option<Entry>)
    requires a.Some? && b.Some? && a.value.mode.Dir? != b.value.mode.Dir?
    requires Reports(vs, at, a, None) && Reports(ws, at, None, b)
    ensures Reports(vs + ws, at, a, b)
  {
    var all := vs + ws;
    forall q ensures Below(a, q).None? || Below(b, q).None? {
      if q == [] {
        assert LeafAt(a.value.hash, q) == None && LeafAt(b.value.hash, q) == None;
      }
    }
    forall i, j | 0 <= i < j < |all| && IsFile(all[i]) && IsFile(all[j])
      ensures all[i].path != all[j].path
    {
      if i < |vs| <= j {
        assert all[i] in vs && all[j] in ws;
      }
    }
  }

  lemma {:induction false} CompareAllReports(trees: set<Hash>, was: seq<Entry>, left: seq<Entry>, prefix: Path,
        now: seq<Entry>)
    requires FineList(left) && FineList(was)
    requires forall i :: 0 <= i < |left| ==> ByName(now, left[i].name) == Some(left[i])
    requires CompareAll(trees, was, left, prefix).Some?
    ensures ReportsNames(CompareAll(trees, was, left, prefix).value, prefix, was, now, NamesOf(left))
    decreases left
  {
    if left != [] {
      var n := left[0].name;
      NamesSplit(left);
      ByNameIsFind(was, n);
      CompareOneReports(trees, ByName(was, n), left[0], prefix + [n]);
      var first := CompareOne(trees, ByName(was, n), left[0], prefix + [n]).value;
      ReportsOne(first, prefix, was, now, n);
      CompareAllReports(trees, was, left[1..], prefix, now);
      ReportsJoin(first, CompareAll(trees, was, left[1..], prefix).value, prefix, was, now, {n}, NamesOf(left[1..]));
    }
  }

  ghost predicate FineRoot(h: Hash) {
    WellFormed(h) && !IsBlob(h)
  }

  // The walk finds every file that differs, once, and nothing else.
  lemma CompareReports(trees: set<Hash>, a: Entry, b: Entry, prefix: Path)
    requires a.mode.Dir? && b.mode.Dir? && FineRoot(a.hash) && FineRoot(b.hash)
    requires Compare(trees, a.hash, b.hash, prefix).Some?
    ensures Reports(Compare(trees, a.hash, b.hash, prefix).value, prefix, Some(a), Some(b))
    decreases b.hash
  {
    var was, now := a.hash, b.hash;
    if was != now {
      var olds, news := Listed(was), Listed(now);
      forall i | 0 <= i < |news| ensures ByName(news, news[i].name) == Some(news[i]) {
        ByNameIsFind(news, news[i].name);
        FindIsTheOne(news, news[i]);
      }
      forall i | 0 <= i < |olds| ensures ByName(olds, olds[i].name) == Some(olds[i]) {
        ByNameIsFind(olds, olds[i].name);
        FindIsTheOne(olds, olds[i]);
      }
      if IsTree(now) {
        CompareAllReports(trees, olds, now.obj.entries, prefix, news);
      }
      var changed := if IsTree(now) then CompareAll(trees, olds, now.obj.entries, prefix).value else [];
      GoneReports(trees, olds, prefix, olds, news);
      var gone := Gone(trees, olds, news, prefix).value;
      forall n | n in NamesOf(news) ensures ByName(news, n).Some? {
        var i :| 0 <= i < |news| && news[i].name == n;
      }
      ReportsJoin(changed, gone, prefix, olds, news, NamesOf(news), Lost(olds, news));
      Unlisted(olds, news);
      NamesReport(changed + gone, prefix, Some(a), Some(b), olds, news, NamesOf(news) + Lost(olds, news));
    }
  }

  lemma Unlisted(olds: seq<Entry>, news: seq<Entry>)
    ensures NamesOf(olds) + NamesOf(news) <= NamesOf(news) + Lost(olds, news)
  {
    forall n | n in NamesOf(olds) && n !in NamesOf(news) ensures n in Lost(olds, news) {
      Unnamed(news, n);
    }
  }

  // ----- When it can be done -----

  /** The directory at a path, the tree itself at none. */
  function DirAt(h: Hash, q: Path): Option<Hash>
    decreases |q|
  {
    if !IsTree(h) then None
    else if q == [] then Some(h)
    else
      match ByName(h.obj.entries, q[0])
      case None => None
      case Some(e) => if e.mode.Dir? then DirAt(e.hash, q[1..]) else None
  }

  function DirOf(e: Option<Entry>, q: Path): Option<Hash> {
    if e.Some? && e.value.mode.Dir? then DirAt(e.value.hash, q) else None
  }

  predicate InHand(trees: set<Hash>, d: Option<Hash>) {
    d.Some? ==> d.value in trees
  }

  /** Wherever the directories of two trees differ, both can be read. */
  ghost predicate ApartHeld(trees: set<Hash>, was: Hash, now: Hash) {
    forall q :: DirAt(was, q) != DirAt(now, q) ==> InHand(trees, DirAt(was, q)) && InHand(trees, DirAt(now, q))
  }

  // The same of two entries, either of which may be missing or a file.
  ghost predicate EntriesHeld(trees: set<Hash>, a: Option<Entry>, b: Option<Entry>) {
    forall q :: DirOf(a, q) != DirOf(b, q) ==> InHand(trees, DirOf(a, q)) && InHand(trees, DirOf(b, q))
  }

  lemma DirSplit(a: Option<Entry>, es: seq<Entry>, q: Path)
    requires Lists(a, es)
    ensures q != [] ==> DirOf(a, q) == DirOf(ByName(es, q[0]), q[1..])
    ensures DirOf(a, []) == if a.Some? && IsTree(a.value.hash) then Some(a.value.hash) else None
  {
  }

  ghost predicate TopHeld(trees: set<Hash>, a: Option<Entry>, b: Option<Entry>) {
    DirOf(a, []) != DirOf(b, []) ==> InHand(trees, DirOf(a, [])) && InHand(trees, DirOf(b, []))
  }

  ghost predicate NamesHeld(trees: set<Hash>, was: seq<Entry>, now: seq<Entry>) {
    forall n :: EntriesHeld(trees, ByName(was, n), ByName(now, n))
  }

  // Two directories, by what they are and by what they list.
  lemma HeldByName(trees: set<Hash>, a: Option<Entry>, b: Option<Entry>, was: seq<Entry>, now: seq<Entry>)
    requires Lists(a, was) && Lists(b, now)
    ensures EntriesHeld(trees, a, b) <==> TopHeld(trees, a, b) && NamesHeld(trees, was, now)
  {
    forall q ensures q != [] ==> DirOf(a, q) == DirOf(ByName(was, q[0]), q[1..]) && DirOf(b, q) == DirOf(ByName(now, q[0]), q[1..]) {
      DirSplit(a, was, q);
      DirSplit(b, now, q);
    }
    if EntriesHeld(trees, a, b) {
      forall n, q
        ensures DirOf(ByName(was, n), q) != DirOf(ByName(now, n), q) ==>
                  InHand(trees, DirOf(ByName(was, n), q)) && InHand(trees, DirOf(ByName(now, n), q))
      {
        assert ([n] + q)[0] == n && ([n] + q)[1..] == q;
      }
    }
  }

  lemma {:induction false} WholeExact(trees: set<Hash>, kind: Kind, e: Entry, path: Path)
    requires FineEntry(e)
    ensures Whole(trees, kind, e, path).Some? <==> EntriesHeld(trees, Some(e), None)
    decreases e, 0
  {
    if e.mode.Dir? {
      var es := e.hash.obj.entries;
      WholeAllExact(trees, kind, es, path);
      HeldByName(trees, Some(e), None, es, []);
      AllByName(trees, es);
    }
  }

  // Each entry against nothing, by place and by name.
  lemma AllByName(trees: set<Hash>, es: seq<Entry>)
    requires UniqueNames(es)
    ensures (forall i :: 0 <= i < |es| ==> EntriesHeld(trees, Some(es[i]), None)) <==> NamesHeld(trees, es, [])
  {
    forall i | 0 <= i < |es| ensures ByName(es, es[i].name) == Some(es[i]) {
      ByNameIsFind(es, es[i].name);
      FindIsTheOne(es, es[i]);
    }
    forall n | ByName(es, n).Some? ensures exists i :: 0 <= i < |es| && ByName(es, n) == Some(es[i]) { ByNameMember(es, n); }
  }

  lemma {:induction false} WholeAllExact(trees: set<Hash>, kind: Kind, es: seq<Entry>, prefix: Path)
    requires forall i :: 0 <= i < |es| ==> FineEntry(es[i])
    ensures WholeAll(trees, kind, es, prefix).Some? <==> forall i :: 0 <= i < |es| ==> EntriesHeld(trees, Some(es[i]), None)
    decreases es
  {
    if es != [] {
      WholeExact(trees, kind, es[0], prefix + [es[0].name]);
      WholeAllExact(trees, kind, es[1..], prefix);
      assert forall i :: 0 < i < |es| ==> es[i] == es[1..][i - 1];
    }
  }

  lemma {:induction false} GoneExact(trees: set<Hash>, was: seq<Entry>, now: seq<Entry>, prefix: Path)
    requires forall i :: 0 <= i < |was| ==> FineEntry(was[i])
    ensures Gone(trees, was, now, prefix).Some? <==>
              forall i :: 0 <= i < |was| && ByName(now, was[i].name).None? ==> EntriesHeld(trees, Some(was[i]), None)
  {
    if was != [] {
      WholeExact(trees, Deleted, was[0], prefix + [was[0].name]);
      GoneExact(trees, was[1..], now, prefix);
      assert forall i :: 0 < i < |was| ==> was[i] == was[1..][i - 1];
    }
  }

  // A file stands nowhere in the way of reading a directory.
  lemma SwapExact(trees: set<Hash>, a: Entry, b: Entry)
    requires a.mode.Dir? != b.mode.Dir?
    ensures EntriesHeld(trees, Some(a), Some(b)) <==>
              EntriesHeld(trees, Some(a), None) && EntriesHeld(trees, Some(b), None)
  {
  }

  lemma {:induction false} CompareOneExact(trees: set<Hash>, before: Option<Entry>, e: Entry, path: Path)
    requires FineEntry(e) && (before.Some? ==> FineEntry(before.value))
    ensures CompareOne(trees, before, e, path).Some? <==> EntriesHeld(trees, before, Some(e))
    decreases e, 0
  {
    WholeExact(trees, Added, e, path);
    if before.Some? {
      WholeExact(trees, Deleted, before.value, path);
      if before.value.mode.Dir? != e.mode.Dir? {
        SwapExact(trees, before.value, e);
      } else if e.mode.Dir? {
        CompareExact(trees, before.value, e, path);
      }
    } else {
      assert EntriesHeld(trees, None, Some(e)) <==> EntriesHeld(trees, Some(e), None);
    }
  }

  lemma {:induction false} CompareAllExact(trees: set<Hash>, was: seq<Entry>, now: seq<Entry>, prefix: Path)
    requires FineList(was) && forall i :: 0 <= i < |now| ==> FineEntry(now[i])
    ensures CompareAll(trees, was, now, prefix).Some? <==>
              forall i :: 0 <= i < |now| ==> EntriesHeld(trees, ByName(was, now[i].name), Some(now[i]))
    decreases now
  {
    if now != [] {
      var before := ByName(was, now[0].name);
      ByNameMember(was, now[0].name);
      CompareOneExact(trees, before, now[0], prefix + [now[0].name]);
      CompareAllExact(trees, was, now[1..], prefix);
      assert forall i :: 0 < i < |now| ==> now[i] == now[1..][i - 1];
    }
  }

  // What both lists name, what the newer names alone, and what the older does.
  lemma NamesByList(trees: set<Hash>, was: seq<Entry>, now: seq<Entry>)
    requires UniqueNames(was) && UniqueNames(now)
    ensures NamesHeld(trees, was, now) <==>
              && (forall i :: 0 <= i < |now| ==> EntriesHeld(trees, ByName(was, now[i].name), Some(now[i])))
              && (forall i :: 0 <= i < |was| && ByName(now, was[i].name).None? ==> EntriesHeld(trees, Some(was[i]), None))
  {
    forall i | 0 <= i < |now| ensures ByName(now, now[i].name) == Some(now[i]) {
      ByNameIsFind(now, now[i].name);
      FindIsTheOne(now, now[i]);
    }
    forall i | 0 <= i < |was| ensures ByName(was, was[i].name) == Some(was[i]) {
      ByNameIsFind(was, was[i].name);
      FindIsTheOne(was, was[i]);
    }
    forall n
      ensures ByName(now, n).Some? ==> exists i :: 0 <= i < |now| && ByName(now, n) == Some(now[i]) && now[i].name == n
      ensures ByName(was, n).Some? ==> exists i :: 0 <= i < |was| && ByName(was, n) == Some(was[i]) && was[i].name == n
    {
      ByNameMember(now, n);
      ByNameMember(was, n);
    }
  }

  // The walk succeeds exactly when, wherever the directories of the two trees
  // differ, both can be read.
  lemma {:induction false} CompareExact(trees: set<Hash>, a: Entry, b: Entry, prefix: Path)
    requires a.mode.Dir? && b.mode.Dir? && FineRoot(a.hash) && FineRoot(b.hash)
    ensures Compare(trees, a.hash, b.hash, prefix).Some? <==> EntriesHeld(trees, Some(a), Some(b))
    decreases b.hash
  {
    if a.hash != b.hash {
      var olds, news := Listed(a.hash), Listed(b.hash);
      if IsTree(b.hash) { CompareAllExact(trees, olds, b.hash.obj.entries, prefix); }
      GoneExact(trees, olds, news, prefix);
      NamesByList(trees, olds, news);
      HeldByName(trees, Some(a), Some(b), olds, news);
      DirSplit(Some(a), olds, []);
      DirSplit(Some(b), news, []);
    }
  }

  lemma RootsExact(trees: set<Hash>, was: Hash, now: Hash)
    requires FineRoot(was) && FineRoot(now)
    ensures Compare(trees, was, now, []).Some? <==> ApartHeld(trees, was, now)
  {
    CompareExact(trees, Entry("", Dir, was), Entry("", Dir, now), []);
    forall q ensures DirOf(Some(Entry("", Dir, was)), q) == DirAt(was, q) && DirOf(Some(Entry("", Dir, now)), q) == DirAt(now, q) {}
  }

  lemma {:induction false} DirReached(h: Hash, q: Path)
    requires DirAt(h, q).Some?
    ensures DirAt(h, q).value in Reach(h) && DirAt(h, q).value != Zero && IsTree(DirAt(h, q).value)
    decreases |q|
  {
    if q != [] {
      var e := ByName(h.obj.entries, q[0]).value;
      ByNameMember(h.obj.entries, q[0]);
      var i :| 0 <= i < |h.obj.entries| && h.obj.entries[i] == e;
      DirReached(e.hash, q[1..]);
    }
  }

  // So it does when everything the two reach is held.
  lemma CompareSucceeds(trees: set<Hash>, was: Hash, now: Hash)
    requires FineRoot(was) && FineRoot(now)
    requires forall x :: x in Reach(was) + Reach(now) && IsTree(x) ==> x in trees
    ensures Compare(trees, was, now, []).Some?
  {
    RootsExact(trees, was, now);
    forall q ensures InHand(trees, DirAt(was, q)) && InHand(trees, DirAt(now, q)) {
      if DirAt(was, q).Some? { DirReached(was, q); }
      if DirAt(now, q).Some? { DirReached(now, q); }
    }
  }

  // ----- The list of changes -----

  /** One differing path. A deletion has no content; the hash it had names it. */
  datatype Change = Change(kind: Kind, path: Path, hash: Hash, content: Option<Bytes>)

  function Key(c: Change): string {
    Join(c.path)
  }

  // A visit told as a change, with the content the hash names.
  function Told(v: Visit): Change {
    Change(v.kind, v.path, v.entry.hash,
           if v.kind == Deleted || !IsBlob(v.entry.hash) then None else Some(v.entry.hash.obj.content))
  }

  function FilesOf(vs: seq<Visit>): seq<Change> {
    if vs == [] then []
    else (if IsFile(vs[0]) then [Told(vs[0])] else []) + FilesOf(vs[1..])
  }

  /** What a change says of its path: whether the file came, went or is another,
      what it holds now, and what it held if it is gone. */
  ghost predicate Says(c: Change, before: Option<Entry>, after: Option<Entry>) {
    && before != after
    && (c.kind == Deleted <==> after.None?) && (c.kind == Added <==> before.None?)
    && if c.kind == Deleted then c.content.None? && c.hash == before.value.hash
       else c.content.Some? && c.hash == after.value.hash == Digest(Blob(c.content.value))
  }

  /** cs is exactly how the files of one tree differ from another's: sorted, each
      path once, and a path is in it just when it differs, as what it is. */
  ghost predicate IsDiff(cs: seq<Change>, was: Hash, now: Hash) {
    && StrictBy(Key, cs)
    && (forall c :: c in cs ==> Says(c, LeafAt(was, c.path), LeafAt(now, c.path)))
    && (forall p :: LeafAt(was, p) != LeafAt(now, p) ==> exists c :: c in cs && c.path == p)
  }

  // Entries that differ, told as a change, are said to.
  lemma ToldSays(kind: Kind, e: Entry, p: Path, was: Hash, now: Hash)
    requires FineRoot(was) && FineRoot(now) && Differ(LeafAt(was, p), LeafAt(now, p)) == Some((kind, e))
    ensures Says(Told(Visit(kind, e, p)), LeafAt(was, p), LeafAt(now, p))
  {
    if LeafAt(now, p).Some? { LeafReached(now, p); } else { LeafReached(was, p); }
  }

  method Diff(g: Graph, was: Hash, now: Hash) returns (r: Option<seq<Change>>)
    requires g.Valid()
    ensures FineRoot(was) && FineRoot(now) && r.Some? ==> IsDiff(r.value, was, now)
    ensures FineRoot(was) && FineRoot(now) && r.Some? ==>
              forall c :: c in r.value && c.kind != Deleted ==>
                && c.content.Some? && LeafAt(now, c.path).Some?
                && LeafAt(now, c.path).value.hash == c.hash == Digest(Blob(c.content.value))
    ensures FineRoot(was) && FineRoot(now) && r.Some? ==>
              forall c :: c in r.value && c.kind == Deleted ==>
                c.content.None? && LeafAt(was, c.path).Some? && c.hash == LeafAt(was, c.path).value.hash
    ensures FineRoot(was) && FineRoot(now) ==>
              (r.Some? <==> ApartHeld(g.trees.Keys, was, now) && NewHeld(g.blobs.Keys, was, now))
    ensures FineRoot(was) && FineRoot(now) && (Reach(was) + Reach(now)) - {Zero} <= g.Held() ==> r.Some?
  {
    var visits := Compare(g.trees.Keys, was, now, []);
    ghost var fine := FineRoot(was) && FineRoot(now);
    if fine {
      RootsExact(g.trees.Keys, was, now);
      if (Reach(was) + Reach(now)) - {Zero} <= g.Held() { AllHeld(g, was, now); }
    }
    if visits.None? {
      return None;
    }
    if fine {
      CompareReports(g.trees.Keys, Entry("", Dir, was), Entry("", Dir, now), []);
      ReportsAreDiff(visits.value, was, now);
      NewByVisit(visits.value, g.blobs.Keys, was, now);
    }
    var out := Tell(g, visits.value);
    if out.None? {
      return None;
    }
    return Some(SortBy(Key, out.value));
  }

  /** Whatever came or was modified can be read. */
  ghost predicate NewHeld(blobs: set<Hash>, was: Hash, now: Hash) {
    forall p :: LeafAt(was, p) != LeafAt(now, p) && LeafAt(now, p).Some? ==> LeafAt(now, p).value.hash in blobs
  }

  ghost predicate Tellable(blobs: set<Hash>, vs: seq<Visit>) {
    forall v :: v in vs && IsFile(v) && v.kind != Deleted ==> v.entry.hash in blobs
  }

  lemma NewByVisit(vs: seq<Visit>, blobs: set<Hash>, was: Hash, now: Hash)
    requires Reports(vs, [], Some(Entry("", Dir, was)), Some(Entry("", Dir, now)))
    ensures Tellable(blobs, vs) <==> NewHeld(blobs, was, now)
  {
    forall v | v in vs && IsFile(v) ensures Differ(LeafAt(was, v.path), LeafAt(now, v.path)) == Some((v.kind, v.entry)) {
      assert v.path[0..] == v.path;
    }
    if Tellable(blobs, vs) {
      forall p | LeafAt(was, p) != LeafAt(now, p) && LeafAt(now, p).Some? ensures LeafAt(now, p).value.hash in blobs {
        var d := Differ(LeafAt(was, p), LeafAt(now, p)).value;
        assert [] + p == p;
        assert Visit(d.0, d.1, p) in vs;
        LeafReached(now, p);
      }
    }
  }

  lemma AllHeld(g: Graph, was: Hash, now: Hash)
    requires g.Valid() && FineRoot(was) && FineRoot(now) && (Reach(was) + Reach(now)) - {Zero} <= g.Held()
    ensures ApartHeld(g.trees.Keys, was, now) && NewHeld(g.blobs.Keys, was, now)
  {
    CompareSucceeds(g.trees.Keys, was, now);
    RootsExact(g.trees.Keys, was, now);
    forall p | LeafAt(now, p).Some? ensures LeafAt(now, p).value.hash in g.blobs { LeafReached(now, p); }
  }

  // One change for each visited file and none for a directory; it only fails
  // over content the graph lacks.
  method Tell(g: Graph, visits: seq<Visit>) returns (r: Option<seq<Change>>)
    requires g.Valid()
    ensures r.Some? ==> r.value == FilesOf(visits)
    ensures r.Some? <==> Tellable(g.blobs.Keys, visits)
  {
    var out, i := [], 0;
    ghost var left := visits;
    while i < |visits|
      invariant 0 <= i <= |visits| && left == visits[i..]
      invariant FilesOf(visits) == out + FilesOf(left)
      invariant Tellable(g.blobs.Keys, visits[..i])
    {
      var v := visits[i];
      left := left[1..];
      if IsFile(v) {
        var content := None;
        if v.kind != Deleted {
          if v.entry.hash !in g.blobs {
            return None;
          }
          content := Some(g.blobs[v.entry.hash]);
        }
        out := out + [Change(v.kind, v.path, v.entry.hash, content)];
      }
      i := i + 1;
    }
    return Some(out);
  }

  lemma {:induction false} FilesOfMembers(vs: seq<Visit>)
    ensures forall v :: v in vs && IsFile(v) ==> Told(v) in FilesOf(vs)
    ensures forall c :: c in FilesOf(vs) ==> exists i :: 0 <= i < |vs| && IsFile(vs[i]) && c == Told(vs[i])
  {
    if vs != [] {
      FilesOfMembers(vs[1..]);
      assert vs == [vs[0]] + vs[1..];
      forall c | c in FilesOf(vs[1..]) ensures exists i :: 0 <= i < |vs| && IsFile(vs[i]) && c == Told(vs[i]) {
        var i :| 0 <= i < |vs[1..]| && IsFile(vs[1..][i]) && c == Told(vs[1..][i]);
        assert vs[i + 1] == vs[1..][i];
      }
    }
  }

  lemma {:induction false} FilesOfDistinct(vs: seq<Visit>)
    requires Once(vs) && forall v :: v in vs && IsFile(v) ==> ValidPath(v.path)
    ensures DistinctBy(Key, FilesOf(vs))
  {
    if vs != [] {
      FilesOfDistinct(vs[1..]);
      FilesOfMembers(vs[1..]);
      var rest := FilesOf(vs[1..]);
      forall j | 0 <= j < |rest| && IsFile(vs[0]) ensures Key(Told(vs[0])) != Key(rest[j]) {
        assert rest[j] in rest;
        var i :| 0 <= i < |vs[1..]| && IsFile(vs[1..][i]) && rest[j] == Told(vs[1..][i]);
        assert vs[i + 1] == vs[1..][i] && vs[0].path != vs[i + 1].path;
        if Key(Told(vs[0])) == Key(rest[j]) { JoinInjective(vs[0].path, vs[i + 1].path); }
      }
    }
  }

  lemma ReportsAreDiff(vs: seq<Visit>, was: Hash, now: Hash)
    requires FineRoot(was) && FineRoot(now)
    requires Reports(vs, [], Some(Entry("", Dir, was)), Some(Entry("", Dir, now)))
    ensures IsDiff(SortBy(Key, FilesOf(vs)), was, now)
  {
    var cs := FilesOf(vs);
    FilesOfMembers(vs);
    forall v | v in vs && IsFile(v)
      ensures ValidPath(v.path) && Differ(LeafAt(was, v.path), LeafAt(now, v.path)) == Some((v.kind, v.entry))
    {
      assert v.path[0..] == v.path;
      if LeafAt(was, v.path).Some? { LeafPathValid(was, v.path); } else { LeafPathValid(now, v.path); }
    }
    FilesOfDistinct(vs);
    SortByOrders(Key, cs);
    SortByDistinct(Key, Key, cs);
    OrderedDistinctIsStrict(Key, SortBy(Key, cs));
    forall c | c in cs ensures Says(c, LeafAt(was, c.path), LeafAt(now, c.path)) {
      var i :| 0 <= i < |vs| && IsFile(vs[i]) && c == Told(vs[i]);
      ToldSays(vs[i].kind, vs[i].entry, vs[i].path, was, now);
    }
    forall p | LeafAt(was, p) != LeafAt(now, p) ensures exists c :: c in cs && c.path == p {
      var d := Differ(LeafAt(was, p), LeafAt(now, p)).value;
      assert [] + p == p;
      assert Visit(d.0, d.1, p) in vs;
      ToldSays(d.0, d.1, p, was, now);
      if LeafAt(now, p).Some? { LeafReached(now, p); } else { LeafReached(was, p); }
      assert Told(Visit(d.0, d.1, p)) in cs;
    }
  }

  // ----- Applying it -----

  /** What stands at p once the changes are made to what stood there. */
  function Patched(cs: seq<Change>, p: Path, stood: Option<Hash>): Option<Hash> {
    if cs == [] then stood
    else if cs[0].path == p then Patched(cs[1..], p, if cs[0].kind == Deleted then None else Some(cs[0].hash))
    else Patched(cs[1..], p, stood)
  }

  function HashAt(h: Hash, p: Path): Option<Hash> {
    if LeafAt(h, p).Some? then Some(LeafAt(h, p).value.hash) else None
  }

  lemma {:induction false} PatchedByOne(cs: seq<Change>, p: Path, stood: Option<Hash>)
    requires DistinctBy(Key, cs)
    ensures (forall c :: c in cs ==> c.path != p) ==> Patched(cs, p, stood) == stood
    ensures forall c :: c in cs && c.path == p ==> Patched(cs, p, stood) == if c.kind == Deleted then None else Some(c.hash)
  {
    if cs != [] {
      assert cs == [cs[0]] + cs[1..];
      var next := if cs[0].path == p then if cs[0].kind == Deleted then None else Some(cs[0].hash) else stood;
      PatchedByOne(cs[1..], p, next);
      forall k | 0 <= k < |cs[1..]| ensures cs[1..][k].path != cs[0].path {
        assert Key(cs[0]) != Key(cs[k + 1]);
      }
    }
  }

  // Made to the older tree's files, a diff gives exactly the newer's.
  lemma DiffPatches(cs: seq<Change>, was: Hash, now: Hash, p: Path)
    requires IsDiff(cs, was, now)
    ensures Patched(cs, p, HashAt(was, p)) == HashAt(now, p)
  {
    forall i, j | 0 <= i < j < |cs| ensures Key(cs[i]) != Key(cs[j]) {
      CmpIsEquality(Key(cs[i]), Key(cs[j]));
    }
    PatchedByOne(cs, p, HashAt(was, p));
    if LeafAt(was, p) != LeafAt(now, p) {
      var c :| c in cs && c.path == p;
    }
  }

  /** What a file at p holds once the changes are made to what it held. */
  function Rewritten(cs: seq<Change>, p: Path, held: Option<Bytes>): Option<Bytes> {
    if cs == [] then held
    else Rewritten(cs[1..], p, if cs[0].path == p then cs[0].content else held)
  }

  function ContentAt(h: Hash, p: Path): Option<Bytes> {
    if LeafAt(h, p).Some? && IsBlob(LeafAt(h, p).value.hash) then Some(LeafAt(h, p).value.hash.obj.content) else None
  }

  lemma {:induction false} RewrittenByOne(cs: seq<Change>, p: Path, held: Option<Bytes>)
    requires DistinctBy(Key, cs)
    ensures (forall c :: c in cs ==> c.path != p) ==> Rewritten(cs, p, held) == held
    ensures forall c :: c in cs && c.path == p ==> Rewritten(cs, p, held) == c.content
  {
    if cs != [] {
      assert cs == [cs[0]] + cs[1..];
      RewrittenByOne(cs[1..], p, if cs[0].path == p then cs[0].content else held);
      forall k | 0 <= k < |cs[1..]| ensures cs[1..][k].path != cs[0].path {
        assert Key(cs[0]) != Key(cs[k + 1]);
      }
    }
  }

  // Made to what the older tree's files hold, a diff gives what the newer's do,
  // file for file.
  lemma DiffRewrites(cs: seq<Change>, was: Hash, now: Hash, p: Path)
    requires IsDiff(cs, was, now)
    ensures Rewritten(cs, p, ContentAt(was, p)) == ContentAt(now, p)
  {
    forall i, j | 0 <= i < j < |cs| ensures Key(cs[i]) != Key(cs[j]) {
      CmpIsEquality(Key(cs[i]), Key(cs[j]));
    }
    RewrittenByOne(cs, p, ContentAt(was, p));
    if LeafAt(was, p) != LeafAt(now, p) {
      var c :| c in cs && c.path == p;
    }
  }
}
