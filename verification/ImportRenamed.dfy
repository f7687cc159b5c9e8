/** What becomes of the records of a bundle when those whose names are in use are renamed. */
module ImportRenamed {
  import opened Text
  import ParentOrder
  import opened Import
  import opened ImportFacts
  import opened ImportCopy
  import opened ImportAgain
  import opened ImportMeant

  // Names.

  /** A name somebody would like, in the place where it has to be free. */
  datatype Want = Want(prefix: string, name: string)

  function KeyOf(prefix: string, name: string): string { prefix + Lower(name) }

  /** The name, or another that is made from it when it is in use. */
  function Settle(used: set<string>, want: Want): string {
    if KeyOf(want.prefix, want.name) in used then UniqueName(want.name, want.prefix, used) else want.name
  }

  /** The names given out one after the other. */
  function Chosen(taken: set<string>, wants: seq<Want>): (names: seq<string>)
    ensures |names| == |wants|
  {
    if wants == [] then []
    else
      var n := |wants| - 1;
      var before := Chosen(taken, wants[..n]);
      before + [Settle(InUse(taken, wants[..n], before), wants[n])]
  }

  function InUse(taken: set<string>, wants: seq<Want>, names: seq<string>): set<string>
    requires |wants| == |names|
  {
    taken + set i | 0 <= i < |names| :: KeyOf(wants[i].prefix, names[i])
  }

  lemma {:induction false} ChosenFirst(taken: set<string>, wants: seq<Want>, k: nat)
    requires k <= |wants|
    ensures Chosen(taken, wants)[..k] == Chosen(taken, wants[..k])
  {
    hide Settle, InUse;
    if k == |wants| {
      assert wants[..k] == wants;
    } else {
      var n := |wants| - 1;
      ChosenFirst(taken, wants[..n], k);
      assert wants[..n][..k] == wants[..k];
    }
  }

  /** So each is settled by those that were in use and those given out before. */
  lemma ChosenAt(taken: set<string>, wants: seq<Want>, k: nat)
    requires k < |wants|
    ensures Chosen(taken, wants)[k]
      == Settle(InUse(taken, wants[..k], Chosen(taken, wants[..k])), wants[k])
  {
    hide Settle, InUse;
    ChosenFirst(taken, wants, k + 1);
    assert wants[..k + 1][..k] == wants[..k];
    assert Chosen(taken, wants)[..k + 1][k] == Chosen(taken, wants)[k];
  }

  /** The least candidate that is free, counting from two; and if the first 998 are in use, a last resort. */
  lemma UniqueIs(base: string, prefix: string, taken: set<string>)
    ensures if forall i: nat :: 2 <= i < 1000 ==> prefix + Lower(Numbered(base, i)) in taken
            then UniqueName(base, prefix, taken) == base + " (imported)"
            else exists i: nat :: 2 <= i < 1000 && UniqueName(base, prefix, taken) == base + " (" + Decimal(i) + ")"
                   && prefix + Lower(Numbered(base, i)) !in taken
                   && forall j: nat :: 2 <= j < i ==> prefix + Lower(Numbered(base, j)) in taken
  {
    hide Lower, Decimal, Numbered;
    UniqueFromIs(base, prefix, taken, 2);
    NumberedAll(base);
  }

  lemma {:induction false} UniqueFromIs(base: string, prefix: string, taken: set<string>, i: nat)
    requires i <= 1000
    ensures if forall k: nat :: i <= k < 1000 ==> prefix + Lower(Numbered(base, k)) in taken
            then UniqueFrom(base, prefix, taken, i) == base + " (imported)"
            else exists k: nat :: i <= k < 1000 && UniqueFrom(base, prefix, taken, i) == Numbered(base, k)
                   && prefix + Lower(Numbered(base, k)) !in taken
                   && forall j: nat :: i <= j < k ==> prefix + Lower(Numbered(base, j)) in taken
    decreases 1000 - i
  {
    hide Lower, Numbered;
    if i < 1000 && prefix + Lower(Numbered(base, i)) in taken { UniqueFromIs(base, prefix, taken, i + 1); }
  }

  lemma LowerDigits(n: nat)
    ensures Lower(Decimal(n)) == Decimal(n)
  {
    NumberOfDecimal(n);
    forall i | 0 <= i < |Decimal(n)| ensures LowerChar(Decimal(n)[i]) == Decimal(n)[i]
    { assert IsDigit(Decimal(n)[i]); }
  }

  lemma LowerNumbered(base: string, i: nat)
    ensures Lower(Numbered(base, i)) == Lower(base) + " (" + Decimal(i) + ")"
  {
    LowerDigits(i);
    LowerJoined(base, " (" + Decimal(i) + ")");
    LowerJoined(" (", Decimal(i) + ")");
    LowerJoined(Decimal(i), ")");
    assert Numbered(base, i) == base + (" (" + (Decimal(i) + ")"));
    assert " (" + Decimal(i) + ")" == " (" + (Decimal(i) + ")");
  }

  lemma LowerJoined(a: string, b: string)
    ensures Lower(a + b) == Lower(a) + Lower(b)
  {
  }

  lemma CandidatesDiffer(base: string, prefix: string, i: nat, j: nat)
    requires prefix + Lower(Numbered(base, i)) == prefix + Lower(Numbered(base, j))
    ensures i == j
  {
    hide Lower, Decimal, Numbered;
    LowerNumbered(base, i);
    LowerNumbered(base, j);
    NumberOfDecimal(i);
    NumberOfDecimal(j);
    var a, b := prefix + Lower(Numbered(base, i)), prefix + Lower(Numbered(base, j));
    var n := |prefix| + |Lower(base)| + 2;
    assert a == prefix + Lower(base) + " (" + Decimal(i) + ")" && b == prefix + Lower(base) + " (" + Decimal(j) + ")";
    assert a[n..|a| - 1] == Decimal(i) && b[n..|b| - 1] == Decimal(j);
  }

  /** Names in use that hold `n` candidates are at least as many. */
  lemma {:induction false} ManyInUse(base: string, prefix: string, taken: set<string>, n: nat)
    requires forall i: nat :: 2 <= i < n + 2 ==> prefix + Lower(Numbered(base, i)) in taken
    ensures |taken| >= n
  {
    hide Lower, Numbered;
    if n > 0 {
      var last := prefix + Lower(Numbered(base, n + 1));
      forall i: nat | 2 <= i < n + 1 ensures prefix + Lower(Numbered(base, i)) in taken - {last} {
        if prefix + Lower(Numbered(base, i)) == last { CandidatesDiffer(base, prefix, i, n + 1); }
      }
      ManyInUse(base, prefix, taken - {last}, n - 1);
    }
  }

  /** With fewer than 998 names in use, what is settled on is free. */
  lemma SettledFree(used: set<string>, want: Want)
    requires |used| < 998
    ensures KeyOf(want.prefix, Settle(used, want)) !in used
  {
    hide Lower, Numbered, UniqueName;
    if KeyOf(want.prefix, want.name) in used {
      UniqueFree(want.name, want.prefix, used);
      if forall i: nat :: 2 <= i < 1000 ==> want.prefix + Lower(Numbered(want.name, i)) in used {
        ManyInUse(want.name, want.prefix, used, 998);
      }
    }
  }

  lemma UniqueFree(base: string, prefix: string, taken: set<string>)
    ensures prefix + Lower(UniqueName(base, prefix, taken)) !in taken
            <==> (prefix + Lower(base + " (imported)") !in taken || exists k: nat ::
                2 <= k < 1000 && prefix + Lower(Numbered(base, k)) !in taken)
  {
    UniqueExactly(base, prefix, taken, 2);
  }

  /** And in any case it is in use exactly when the name, every candidate and the last resort are. */
  lemma SettledExactly(used: set<string>, want: Want)
    ensures KeyOf(want.prefix, Settle(used, want)) in used
      <==> KeyOf(want.prefix, want.name) in used && KeyOf(want.prefix, want.name + " (imported)") in used
           && forall i: nat :: 2 <= i < 1000 ==> KeyOf(want.prefix, Numbered(want.name, i)) in used
  {
    hide Lower, Numbered, UniqueName;
    UniqueFree(want.name, want.prefix, used);
    if forall i: nat :: 2 <= i < 1000 ==> KeyOf(want.prefix, Numbered(want.name, i)) in used {
      forall i: nat | 2 <= i < 1000 ensures want.prefix + Lower(Numbered(want.name, i)) in used {
        assert KeyOf(want.prefix, Numbered(want.name, i)) in used;
      }
    }
  }

  lemma {:induction false} InUseSize(taken: set<string>, wants: seq<Want>, names: seq<string>)
    requires |wants| == |names|
    ensures |InUse(taken, wants, names)| <= |taken| + |names|
  {
    hide KeyOf;
    if names == [] {
      assert InUse(taken, wants, names) == taken;
    } else {
      var n := |names| - 1;
      InUseSize(taken, wants[..n], names[..n]);
      assert InUse(taken, wants, names) == InUse(taken, wants[..n], names[..n]) + {KeyOf(wants[n].prefix, names[n])};
    }
  }

  lemma InUseMore(taken: set<string>, wants: seq<Want>, names: seq<string>, want: Want, name: string)
    requires |wants| == |names|
    ensures InUse(taken, wants + [want], names + [name]) == InUse(taken, wants, names) + {KeyOf(want.prefix, name)}
  {
    hide KeyOf;
    var ws, ns := wants + [want], names + [name];
    assert ns[|names|] == name && ws[|names|] == want;
    assert forall i :: 0 <= i < |names| ==> ns[i] == names[i] && ws[i] == wants[i];
  }

  /**
   As long as there are few enough names, those given out are in use neither before nor twice; a name is kept when it
   was free, and a number put behind it when it was not.
   */
  lemma ChosenApart(taken: set<string>, wants: seq<Want>)
    requires |taken| + |wants| <= 998
    ensures var names := Chosen(taken, wants);
            && (forall k :: 0 <= k < |names| ==> KeyOf(wants[k].prefix, names[k]) !in taken)
            && (forall j, k :: 0 <= j < k < |names| ==>
                  KeyOf(wants[j].prefix, names[j]) != KeyOf(wants[k].prefix, names[k]))
            && (forall k :: 0 <= k < |names| ==>
                  names[k] == wants[k].name || exists i: nat :: 2 <= i < 1000 && names[k] == Numbered(wants[k].name, i))
  {
    hide KeyOf, Settle, Numbered;
    var names := Chosen(taken, wants);
    forall k | 0 <= k < |names|
      ensures KeyOf(wants[k].prefix, names[k]) !in taken
      ensures forall j :: 0 <= j < k ==> KeyOf(wants[j].prefix, names[j]) != KeyOf(wants[k].prefix, names[k])
      ensures names[k] == wants[k].name || exists i: nat :: 2 <= i < 1000 && names[k] == Numbered(wants[k].name, i)
    {
      ChosenAt(taken, wants, k);
      ChosenFirst(taken, wants, k);
      var used := InUse(taken, wants[..k], names[..k]);
      InUseSize(taken, wants[..k], names[..k]);
      SettledFree(used, wants[k]);
      SettledForm(used, wants[k]);
      forall j | 0 <= j < k ensures KeyOf(wants[j].prefix, names[j]) != KeyOf(wants[k].prefix, names[k]) {
        assert wants[..k][j] == wants[j] && names[..k][j] == names[j];
        assert KeyOf(wants[j].prefix, names[j]) in used;
      }
    }
  }

  lemma SettledForm(used: set<string>, want: Want)
    requires |used| < 998
    ensures Settle(used, want) == want.name || exists i: nat ::
      2 <= i < 1000 && Settle(used, want) == Numbered(want.name, i)
  {
    hide Lower, Numbered, UniqueName;
    if KeyOf(want.prefix, want.name) in used {
      UniqueIs(want.name, want.prefix, used);
      if forall i: nat :: 2 <= i < 1000 ==> want.prefix + Lower(Numbered(want.name, i)) in used {
        ManyInUse(want.name, want.prefix, used, 998);
      }
      NumberedAll(want.name);
    }
  }

  lemma NumberedAll(base: string)
    ensures forall i: nat :: Numbered(base, i) == base + " (" + Decimal(i) + ")"
  {
  }

  // What every record comes to.

  /** Every identifier of the bundle, and no other, stands for what was made for the last record that has it. */
  ghost predicate AllGiven(olds: seq<Id>, mint: seq<Id>, ids: map<Id, Id>) {
    && |olds| <= |mint| && (forall id :: id in ids <==> id in olds)
    && forall k: nat :: LastWith(olds, k) ==> olds[k] in ids && ids[olds[k]] == mint[k]
  }

  lemma AllGivenMore(olds: seq<Id>, mint: seq<Id>, ids: map<Id, Id>, next: Id)
    requires AllGiven(olds, mint, ids) && |olds| < |mint|
    ensures AllGiven(olds + [next], mint, ids[next := mint[|olds|]])
  {
    var more, now := olds + [next], ids[next := mint[|olds|]];
    forall k: nat | LastWith(more, k) ensures more[k] in now && now[more[k]] == mint[k] {
      if k < |olds| {
        assert more[|olds|] != more[k];
        forall l | k < l < |olds| ensures olds[l] != olds[k] { assert more[l] != more[k]; }
        assert LastWith(olds, k);
      }
    }
  }

  /** A row under each of the first identifiers, as `made` says, and otherwise those that were there. */
  ghost predicate AllMade<T>(was: map<Id, T>, rows: map<Id, T>, made: seq<T>, mint: seq<Id>) {
    && |made| <= |mint| && Kept(was, rows) && (forall id :: id in rows ==> id in was || id in mint[..|made|])
    && forall k :: 0 <= k < |made| ==> mint[k] in rows && rows[mint[k]] == made[k]
  }

  lemma AllMadeMore<T>(was: map<Id, T>, rows: map<Id, T>, made: seq<T>, mint: seq<Id>, row: T)
    requires AllMade(was, rows, made, mint) && |made| < |mint| && Minted(mint, was.Keys)
    ensures AllMade(was, rows[mint[|made|] := row], made + [row], mint)
  {
    var n := |made|;
    assert mint[..n + 1] == mint[..n] + [mint[n]];
    assert mint[n] !in was;
  }

  // Credentials.

  ghost function CredWants(items: seq<Item<Cred>>): seq<Want> {
    seq(|items|, i requires 0 <= i < |items| => Want("", items[i].row.name))
  }

  ghost function RenamedCreds(items: seq<Item<Cred>>, names: seq<string>): seq<Cred>
    requires |names| == |items|
  {
    seq(|items|, i requires 0 <= i < |items| => CredRow(items[i].row, names[i]))
  }

  lemma CredRenames(b: State, item: Item<Cred>, mint: Id)
    ensures var r, name := CredStep(b, item, Rename, mint), Settle(b.takenCreds.Keys, Want("", item.row.name));
            && (r.Failed? <==> BadCred(item.row.(name := name)))
            && (r.Done? ==>
                  && r.state.credIds == b.credIds[item.id := mint]
                  && r.state.takenCreds.Keys == b.takenCreds.Keys + {KeyOf("", name)}
                  && r.state.acc.creds == b.acc.creds[mint := CredRow(item.row, name)])
  {
    hide Lower, Trim, UniqueName;
    assert "" + Lower(item.row.name) == Lower(item.row.name);
    var name := Settle(b.takenCreds.Keys, Want("", item.row.name));
    assert "" + Lower(name) == Lower(name);
  }

  ghost predicate CredsRenamed(s: State, t: State, items: seq<Item<Cred>>, mint: seq<Id>) {
    var wants := CredWants(items);
    var names := Chosen(s.takenCreds.Keys, wants);
    && |wants| == |items| && t.takenCreds.Keys == InUse(s.takenCreds.Keys, wants, names)
    && AllGiven(CredOlds(items), mint, t.credIds)
    && AllMade(s.acc.creds, t.acc.creds, RenamedCreds(items, names), mint)
  }

  lemma ChosenMore(taken: set<string>, wants: seq<Want>, want: Want)
    ensures var names := Chosen(taken, wants);
            Chosen(taken, wants + [want]) == names + [Settle(InUse(taken, wants, names), want)]
  {
    assert (wants + [want])[..|wants|] == wants;
  }

  lemma CredRenamedParts(items: seq<Item<Cred>>, names: seq<string>, name: string)
    requires items != [] && |names| == |items| - 1
    ensures var n := |items| - 1;
            && CredWants(items) == CredWants(items[..n]) + [Want("", items[n].row.name)]
            && RenamedCreds(items, names + [name])
               == RenamedCreds(items[..n], names) + [CredRow(items[n].row, name)]
  {
    hide CredRow;
  }

  lemma CredRenamed(s: State, b: State, items: seq<Item<Cred>>, mint: seq<Id>)
    requires 0 < |items| <= |mint| && Minted(mint, s.acc.creds.Keys) && CredsRenamed(s, b, items[..|items| - 1], mint)
    requires CredStep(b, items[|items| - 1], Rename, mint[|items| - 1]).Done?
    ensures CredsRenamed(s, CredStep(b, items[|items| - 1], Rename, mint[|items| - 1]).state, items, mint)
  {
    hide AllGiven, AllMade, Minted, Settle, InUse, KeyOf, CredStep, CredWants, RenamedCreds, CredOlds, CredRow, Chosen;
    var n := |items| - 1;
    var taken, wants := s.takenCreds.Keys, CredWants(items[..n]);
    var names, want := Chosen(taken, wants), Want("", items[n].row.name);
    var name := Settle(InUse(taken, wants, names), want);
    CredRenames(b, items[n], mint[n]);
    ChosenMore(taken, wants, want);
    CredRenamedParts(items, names, name);
    InUseMore(taken, wants, names, want, name);
    CredParts(items);
    CredLengths(items[..n]);
    AllGivenMore(CredOlds(items[..n]), mint, b.credIds, items[n].id);
    assert |RenamedCreds(items[..n], names)| == n by { RenamedLength(items[..n], names); }
    AllMadeMore(s.acc.creds, b.acc.creds, RenamedCreds(items[..n], names), mint, CredRow(items[n].row, name));
  }

  lemma RenamedLength(items: seq<Item<Cred>>, names: seq<string>)
    requires |names| == |items|
    ensures |RenamedCreds(items, names)| == |items|
  {
  }

  lemma CredsRenamedNone(s: State, mint: seq<Id>)
    requires s.credIds == map[]
    ensures CredsRenamed(s, s, [], mint)
  {
  }

  /** Every credential is made, under a name that is in nobody's way. */
  lemma {:induction false} CredsAllMade(s: State, items: seq<Item<Cred>>, mint: seq<Id>)
    requires |items| <= |mint| && Minted(mint, s.acc.creds.Keys) && s.credIds == map[]
    requires Creds(s, items, Rename, mint).Done?
    ensures CredsRenamed(s, Creds(s, items, Rename, mint).state, items, mint)
  {
    hide CredsRenamed, CredStep, Minted;
    if items == [] {
      CredsRenamedNone(s, mint);
      assert items == [];
    } else {
      var n := |items| - 1;
      CredsAllMade(s, items[..n], mint);
      CredRenamed(s, Creds(s, items[..n], Rename, mint).state, items, mint);
    }
  }

  // Folders.

  ghost function FolderWants(fs: seq<ParentOrder.Folder>): seq<Want> {
    seq(|fs|, i requires 0 <= i < |fs| => Want("", fs[i].name))
  }

  ghost function RenamedFolders(ids: map<Id, Id>, into: Id, fs: seq<ParentOrder.Folder>,
      names: seq<string>): seq<FolderRow>
    requires |names| == |fs|
  {
    seq(|fs|, i requires 0 <= i < |fs| => FolderRow(ParentMeant(ids, into, fs[i].parent), Trim(names[i]),
        fs[i].defaults))
  }

  lemma FolderRenames(b: State, f: ParentOrder.Folder, into: Id, mint: Id)
    ensures var r, name := FolderStep(b, f, Rename, into, mint), Settle(b.takenFolders.Keys, Want("", f.name));
            && (r.Failed? <==> BadFolder(b, f.(name := name), into))
            && (r.Done? ==>
                  && r.state.folderIds == b.folderIds[f.id := mint]
                  && r.state.takenFolders.Keys == b.takenFolders.Keys + {KeyOf("", name)}
                  && r.state.acc.folders
                     == b.acc.folders[mint :=
                         FolderRow(ParentMeant(b.folderIds, into, f.parent), Trim(name), f.defaults)])
  {
    hide Lower, Trim, UniqueName, LevelWithin, Parents;
    assert "" + Lower(f.name) == Lower(f.name);
    var name := Settle(b.takenFolders.Keys, Want("", f.name));
    assert "" + Lower(name) == Lower(name);
  }

  ghost predicate FoldersRenamed(s: State, t: State, fs: seq<ParentOrder.Folder>, into: Id, mint: seq<Id>) {
    var wants := FolderWants(fs);
    var names := Chosen(s.takenFolders.Keys, wants);
    && |wants| == |fs| && t.takenFolders.Keys == InUse(s.takenFolders.Keys, wants, names)
    && AllGiven(FolderOlds(fs), mint, t.folderIds)
    && AllMade(s.acc.folders, t.acc.folders, RenamedFolders(t.folderIds, into, fs, names), mint)
  }

  /** Later folders are not the parents of earlier ones, so that what a parent stands for stays. */
  lemma FolderRenamedParts(ids: map<Id, Id>, into: Id, fs: seq<ParentOrder.Folder>, names: seq<string>, name: string,
      given: Id)
    requires fs != [] && |names| == |fs| - 1 && Downward(fs)
    ensures var n := |fs| - 1;
            && FolderWants(fs) == FolderWants(fs[..n]) + [Want("", fs[n].name)]
            && |RenamedFolders(ids, into, fs[..n], names)| == n
            && RenamedFolders(ids[fs[n].id := given], into, fs, names + [name])
               == RenamedFolders(ids, into, fs[..n], names)
                  + [FolderRow(ParentMeant(ids, into, fs[n].parent), Trim(name), fs[n].defaults)]
  {
    hide Trim;
  }

  lemma FolderRenamed(s: State, b: State, fs: seq<ParentOrder.Folder>, into: Id, mint: seq<Id>)
    requires 0 < |fs| <= |mint| && Minted(mint, s.acc.folders.Keys) && Downward(fs)
    requires FoldersRenamed(s, b, fs[..|fs| - 1], into, mint)
    requires FolderStep(b, fs[|fs| - 1], Rename, into, mint[|fs| - 1]).Done?
    ensures FoldersRenamed(s, FolderStep(b, fs[|fs| - 1], Rename, into, mint[|fs| - 1]).state, fs, into, mint)
  {
    hide AllGiven, AllMade, Minted, Settle, InUse, KeyOf, FolderStep, FolderWants, RenamedFolders, FolderOlds, Chosen,
         BadFolder, Trim, Lower;
    var n := |fs| - 1;
    var taken, wants := s.takenFolders.Keys, FolderWants(fs[..n]);
    var names, want := Chosen(taken, wants), Want("", fs[n].name);
    var name := Settle(InUse(taken, wants, names), want);
    FolderRenames(b, fs[n], into, mint[n]);
    ChosenMore(taken, wants, want);
    FolderRenamedParts(b.folderIds, into, fs, names, name, mint[n]);
    InUseMore(taken, wants, names, want, name);
    FolderKeysOlds(fs);
    AllGivenMore(FolderOlds(fs[..n]), mint, b.folderIds, fs[n].id);
    AllMadeMore(s.acc.folders, b.acc.folders, RenamedFolders(b.folderIds, into, fs[..n], names), mint,
                FolderRow(ParentMeant(b.folderIds, into, fs[n].parent), Trim(name), fs[n].defaults));
  }

  lemma FoldersRenamedNone(s: State, into: Id, mint: seq<Id>)
    requires s.folderIds == map[]
    ensures FoldersRenamed(s, s, [], into, mint)
  {
  }

  /** Every folder is made, under what its parent stands for. */
  lemma {:induction false} FoldersAllMade(s: State, fs: seq<ParentOrder.Folder>, into: Id, mint: seq<Id>)
    requires |fs| <= |mint| && Minted(mint, s.acc.folders.Keys) && s.folderIds == map[] && Downward(fs)
    requires Folders(s, fs, Rename, into, mint).Done?
    ensures FoldersRenamed(s, Folders(s, fs, Rename, into, mint).state, fs, into, mint)
  {
    hide FoldersRenamed, FolderStep, Minted;
    if fs == [] {
      FoldersRenamedNone(s, into, mint);
      assert fs == [];
    } else {
      var n := |fs| - 1;
      assert Downward(fs[..n]);
      FoldersAllMade(s, fs[..n], into, mint);
      FolderRenamed(s, Folders(s, fs[..n], Rename, into, mint).state, fs, into, mint);
    }
  }

  // Connections.

  ghost function ConnWants(ids: map<Id, Id>, into: Id, items: seq<Item<Conn>>): seq<Want> {
    seq(|items|, i requires 0 <= i < |items| =>
      Want(PlaceMeant(ids, into, items[i].row.folder) + "/", items[i].row.name))
  }

  ghost function RenamedConns(credIds: map<Id, Id>, ids: map<Id, Id>, into: Id, items: seq<Item<Conn>>,
      names: seq<string>)
      : seq<Conn>
    requires |names| == |items|
  {
    seq(|items|, i requires 0 <= i < |items| =>
      ConnRow(credIds, PlaceMeant(ids, into, items[i].row.folder), items[i].row, names[i]))
  }

  lemma ConnRenames(b: State, item: Item<Conn>, into: Id, mint: Id)
    ensures var r, place := ConnStep(b, item, Rename, into, mint), PlaceMeant(b.folderIds, into, item.row.folder);
            var name := Settle(b.takenConns, Want(place + "/", item.row.name));
            && (r.Failed? <==> BadConn(b.acc.folders, place, item.row.(name := name)))
            && (r.Done? ==>
                  && r.state.connIds == b.connIds[item.id := mint]
                  && r.state.takenConns == b.takenConns + {KeyOf(place + "/", name)}
                  && r.state.acc.conns == b.acc.conns[mint := ConnRow(b.credIds, place, item.row, name)])
  {
    hide Lower, Trim, UniqueName, AcceptedConn, BadConn, StoredConn, ConnRow;
    var place := PlaceMeant(b.folderIds, into, item.row.folder);
    assert place + "/" + Lower(item.row.name) == Slot(place, item.row.name);
    MadeRow(b, item.row, place, Settle(b.takenConns, Want(place + "/", item.row.name)));
  }

  ghost predicate ConnsRenamed(s: State, t: State, items: seq<Item<Conn>>, into: Id, mint: seq<Id>) {
    var wants := ConnWants(s.folderIds, into, items);
    var names := Chosen(s.takenConns, wants);
    && t.folderIds == s.folderIds && t.credIds == s.credIds && |wants| == |items|
    && t.takenConns == InUse(s.takenConns, wants, names)
    && AllGiven(ConnOlds(items), mint, t.connIds)
    && AllMade(s.acc.conns, t.acc.conns, RenamedConns(s.credIds, s.folderIds, into, items, names), mint)
  }

  lemma ConnRenamedParts(credIds: map<Id, Id>, ids: map<Id, Id>, into: Id, items: seq<Item<Conn>>, names: seq<string>,
      name: string)
    requires items != [] && |names| == |items| - 1
    ensures var n := |items| - 1;
            var place := PlaceMeant(ids, into, items[n].row.folder);
            && ConnWants(ids, into, items) == ConnWants(ids, into, items[..n]) + [Want(place + "/", items[n].row.name)]
            && |RenamedConns(credIds, ids, into, items[..n], names)| == n
            && RenamedConns(credIds, ids, into, items, names + [name])
               == RenamedConns(credIds, ids, into, items[..n], names) + [ConnRow(credIds, place, items[n].row, name)]
  {
    hide ConnRow, PlaceMeant;
  }

  lemma ConnRenamed(s: State, b: State, items: seq<Item<Conn>>, into: Id, mint: seq<Id>)
    requires 0 < |items| <= |mint| && Minted(mint, s.acc.conns.Keys)
    requires ConnsRenamed(s, b, items[..|items| - 1], into, mint)
    requires ConnStep(b, items[|items| - 1], Rename, into, mint[|items| - 1]).Done?
    ensures ConnsRenamed(s, ConnStep(b, items[|items| - 1], Rename, into, mint[|items| - 1]).state, items, into, mint)
  {
    hide AllGiven, AllMade, Minted, Settle, InUse, KeyOf, ConnStep, ConnWants, RenamedConns, ConnOlds, Chosen, ConnRow,
         BadConn, PlaceMeant, Lower;
    var n := |items| - 1;
    var place := PlaceMeant(s.folderIds, into, items[n].row.folder);
    var taken, wants := s.takenConns, ConnWants(s.folderIds, into, items[..n]);
    var names, want := Chosen(taken, wants), Want(place + "/", items[n].row.name);
    var name := Settle(InUse(taken, wants, names), want);
    ConnRenames(b, items[n], into, mint[n]);
    ConnShape(b, items[n], Rename, into, mint[n]);
    ChosenMore(taken, wants, want);
    ConnRenamedParts(s.credIds, s.folderIds, into, items, names, name);
    InUseMore(taken, wants, names, want, name);
    ConnKeysOlds(s.folderIds, into, items);
    AllGivenMore(ConnOlds(items[..n]), mint, b.connIds, items[n].id);
    AllMadeMore(s.acc.conns, b.acc.conns, RenamedConns(s.credIds, s.folderIds, into, items[..n], names), mint,
                ConnRow(s.credIds, place, items[n].row, name));
  }

  lemma ConnsRenamedNone(s: State, into: Id, mint: seq<Id>)
    requires s.connIds == map[]
    ensures ConnsRenamed(s, s, [], into, mint)
  {
  }

  /** Every connection is made, in the folder and with the credential that its own ones stand for. */
  lemma {:induction false} ConnsAllMade(s: State, items: seq<Item<Conn>>, into: Id, mint: seq<Id>)
    requires |items| <= |mint| && Minted(mint, s.acc.conns.Keys) && s.connIds == map[]
    requires Conns(s, items, Rename, into, mint).Done?
    ensures ConnsRenamed(s, Conns(s, items, Rename, into, mint).state, items, into, mint)
  {
    hide ConnsRenamed, ConnStep, Minted;
    if items == [] {
      ConnsRenamedNone(s, into, mint);
      assert items == [];
    } else {
      var n := |items| - 1;
      ConnsAllMade(s, items[..n], into, mint);
      ConnRenamed(s, Conns(s, items[..n], Rename, into, mint).state, items, into, mint);
    }
  }

  // The whole import.

  /** The new connections, whatever has become of their chains. */
  ghost predicate ConnsRenamedCarried(s: State, t: State, items: seq<Item<Conn>>, into: Id, mint: seq<Id>) {
    var wants := ConnWants(t.folderIds, into, items);
    && |wants| == |items| <= |mint| && AllGiven(ConnOlds(items), mint, t.connIds) && Kept(s.acc.conns, t.acc.conns)
    && (forall id :: id in t.acc.conns ==> id in s.acc.conns || id in mint[..|items|])
    && forall k: nat :: k < |items| ==>
         RenamedCarried(t, items, into, mint, k, Chosen(s.takenConns, wants)[k])
  }

  ghost predicate RenamedCarried(t: State, items: seq<Item<Conn>>, into: Id, mint: seq<Id>, k: nat, name: string) {
    && k < |items| <= |mint| && mint[k] in t.acc.conns
    && var c, row := items[k].row, t.acc.conns[mint[k]];
       row == ConnRow(t.credIds, PlaceMeant(t.folderIds, into, c.folder), c, name).(chain := row.chain)
       && ChainFrom(t.connIds, items, mint[k], row.chain)
  }

  lemma WantsLength(ids: map<Id, Id>, into: Id, items: seq<Item<Conn>>)
    ensures |ConnWants(ids, into, items)| == |items|
  {
  }

  lemma RenamedOn(b: State, c: State, items: seq<Item<Conn>>, into: Id, mint: seq<Id>)
    requires ConnsRenamed(b, c, items, into, mint) && GivenNew(c.connIds, c.acc.conns, b.acc.conns)
    ensures ConnsRenamedCarried(b, Chains(c, items).state, items, into, mint)
  {
    hide AllGiven, ConnWants, ConnOlds, ConnRow, PlaceMeant, Chains, ChainFrom, Settle, InUse, Chosen;
    var t := Chains(c, items).state;
    var names := Chosen(b.takenConns, ConnWants(b.folderIds, into, items));
    ChainsAlone(c, items);
    ChainsKept(b.acc.conns, c.acc.conns, t.acc.conns, c.connIds);
    forall k: nat | k < |items| ensures RenamedCarried(t, items, into, mint, k, names[k]) {
      assert c.acc.conns[mint[k]] == RenamedConns(b.credIds, b.folderIds, into, items, names)[k];
      BareRow(b.credIds, PlaceMeant(b.folderIds, into, items[k].row.folder), items[k].row, names[k]);
      ChainsAreFrom(c, items, mint[k]);
    }
  }

  lemma BareRow(credIds: map<Id, Id>, place: Id, c: Conn, name: string)
    ensures ConnRow(credIds, place, c, name).chain == []
  {
  }

  /** Renaming skips nothing: every record of the bundle is made. */
  lemma RenameMakesAll(acc: Account, listing: Listing, p: Payload, ordered: seq<ParentOrder.Folder>, into: Id,
      ids: Supply)
    requires Enough(p, ordered, ids) && AllMinted(acc, ids)
    requires ParentOrder.DistinctIds(p.folders) && Ordered(p.folders, ordered)
    requires ImportAll(acc, listing, p, ordered, Rename, into, ids).Done?
    ensures var s, t := Begin(acc, listing), ImportAll(acc, listing, p, ordered, Rename, into, ids).state;
            && CredsRenamed(s, t, p.creds, ids.creds) && FoldersRenamed(s, t, ordered, into, ids.folders)
            && ConnsRenamedCarried(s, t, p.conns, into, ids.conns)
  {
    hide Creds, Folders, Conns, Chains, Ordered, Minted, CredsRenamed, FoldersRenamed, ConnsRenamed,
         ConnsRenamedCarried, Taken, TakenSlots, CredNames, FolderNames, Grew;
    OrderedDownward(p.folders, ordered);
    var s := Begin(acc, listing);
    CredsCounted(s, p.creds, Rename, ids.creds);
    CredsAllMade(s, p.creds, ids.creds);
    var a := Creds(s, p.creds, Rename, ids.creds).state;
    FoldersCounted(a, ordered, Rename, into, ids.folders);
    FoldersAllMade(a, ordered, into, ids.folders);
    var b := Folders(a, ordered, Rename, into, ids.folders).state;
    ConnsCounted(b, p.conns, Rename, into, ids.conns);
    ConnsAllMade(b, p.conns, into, ids.conns);
    var c := Conns(b, p.conns, Rename, into, ids.conns).state;
    RenamedOn(b, c, p.conns, into, ids.conns);
    ChainsAlone(c, p.conns);
    var t := Chains(c, p.conns).state;
    SameCredsRenamed(s, a, t, p.creds, ids.creds);
    SameFoldersRenamed(a, b, s, t, ordered, into, ids.folders);
    SameConnsRenamed(b, s, t, p.conns, into, ids.conns);
  }

  lemma SameCredsRenamed(s: State, a: State, t: State, items: seq<Item<Cred>>, mint: seq<Id>)
    requires CredsRenamed(s, a, items, mint)
    requires t.takenCreds == a.takenCreds && t.credIds == a.credIds && t.acc.creds == a.acc.creds
    ensures CredsRenamed(s, t, items, mint)
  {
    hide AllGiven, AllMade, CredWants, Chosen, InUse;
  }

  lemma SameFoldersRenamed(a: State, b: State, s: State, t: State, fs: seq<ParentOrder.Folder>, into: Id, mint: seq<Id>)
    requires FoldersRenamed(a, b, fs, into, mint)
    requires s.takenFolders == a.takenFolders && s.acc.folders == a.acc.folders
    requires t.takenFolders == b.takenFolders && t.folderIds == b.folderIds && t.acc.folders == b.acc.folders
    ensures FoldersRenamed(s, t, fs, into, mint)
  {
    hide AllGiven, AllMade, FolderWants, Chosen, InUse;
  }

  lemma SameConnsRenamed(b: State, s: State, t: State, items: seq<Item<Conn>>, into: Id, mint: seq<Id>)
    requires ConnsRenamedCarried(b, t, items, into, mint)
    requires s.takenConns == b.takenConns && s.acc.conns == b.acc.conns
    ensures ConnsRenamedCarried(s, t, items, into, mint)
  {
    hide AllGiven, RenamedCarried, ConnWants, Chosen;
  }

  // The names in the account afterwards.

  ghost predicate Named(name: string) { name != "" && Trim(name) == name }

  lemma NumberedTrimmed(base: string, i: nat)
    requires Named(base)
    ensures Trim(Numbered(base, i)) == Numbered(base, i)
  {
    hide Trim, Decimal;
    TrimmedEnds(base);
    EndsTrimmed(Numbered(base, i));
  }

  lemma ChosenTrimmed(taken: set<string>, wants: seq<Want>, k: nat)
    requires |taken| + |wants| <= 998 && k < |wants| && Named(wants[k].name)
    ensures Trim(Chosen(taken, wants)[k]) == Chosen(taken, wants)[k]
  {
    hide Trim, Chosen, Numbered;
    ChosenApart(taken, wants);
    if i: nat :| 2 <= i < 1000 && Chosen(taken, wants)[k] == Numbered(wants[k].name, i) {
      NumberedTrimmed(wants[k].name, i);
    }
  }

  /** The k-th credential goes by the name chosen for it. */
  lemma CredNamed(s: State, t: State, items: seq<Item<Cred>>, mint: seq<Id>, k: nat)
    requires CredsRenamed(s, t, items, mint) && |s.takenCreds| + |items| <= 998
    requires k < |items| && Named(items[k].row.name)
    ensures k < |mint| && mint[k] in t.acc.creds
    ensures t.acc.creds[mint[k]].name == Chosen(s.takenCreds.Keys, CredWants(items))[k]
    ensures KeyOf("", t.acc.creds[mint[k]].name) == Lower(t.acc.creds[mint[k]].name)
  {
    hide Lower, Trim, Chosen, InUse, AllGiven, Named;
    var names := Chosen(s.takenCreds.Keys, CredWants(items));
    assert |s.takenCreds.Keys| == |s.takenCreds|;
    ChosenTrimmed(s.takenCreds.Keys, CredWants(items), k);
    assert t.acc.creds[mint[k]] == RenamedCreds(items, names)[k];
  }

  /**
   With fewer than a thousand names in all, no two credentials made are called the same ignoring case, and none as one
   that was there.
   */
  lemma CredsApart(acc: Account, listing: Listing, t: State, items: seq<Item<Cred>>, mint: seq<Id>, j: nat, k: nat,
      id: Id)
    requires CredsRenamed(Begin(acc, listing), t, items, mint) && |Begin(acc, listing).takenCreds| + |items| <= 998
    requires j < |items| && k < |items| && j != k && Named(items[j].row.name) && Named(items[k].row.name)
    requires id in acc.creds && id in listing.creds
    ensures j < |mint| && k < |mint| && mint[j] in t.acc.creds && mint[k] in t.acc.creds
    ensures Lower(t.acc.creds[mint[j]].name) != Lower(t.acc.creds[mint[k]].name)
    ensures Lower(acc.creds[id].name) != Lower(t.acc.creds[mint[k]].name)
  {
    hide CredsRenamed, Lower, Taken, Chosen, Named, KeyOf;
    var s := Begin(acc, listing);
    CredNamed(s, t, items, mint, j);
    CredNamed(s, t, items, mint, k);
    assert |s.takenCreds.Keys| == |s.takenCreds|;
    ChosenApart(s.takenCreds.Keys, CredWants(items));
    TakenTracks(CredNames(acc), listing.creds);
    assert Lower(CredNames(acc)[id]) in s.takenCreds;
  }

  lemma FolderNamed(s: State, t: State, fs: seq<ParentOrder.Folder>, into: Id, mint: seq<Id>, k: nat)
    requires FoldersRenamed(s, t, fs, into, mint) && |s.takenFolders| + |fs| <= 998
    requires k < |fs| && Named(fs[k].name)
    ensures k < |mint| && mint[k] in t.acc.folders
    ensures t.acc.folders[mint[k]].name == Chosen(s.takenFolders.Keys, FolderWants(fs))[k]
    ensures KeyOf("", t.acc.folders[mint[k]].name) == Lower(t.acc.folders[mint[k]].name)
  {
    hide Lower, Trim, Chosen, InUse, AllGiven, Named, ParentMeant;
    var names := Chosen(s.takenFolders.Keys, FolderWants(fs));
    assert |s.takenFolders.Keys| == |s.takenFolders|;
    ChosenTrimmed(s.takenFolders.Keys, FolderWants(fs), k);
    assert t.acc.folders[mint[k]] == RenamedFolders(t.folderIds, into, fs, names)[k];
  }

  lemma FoldersApart(acc: Account, listing: Listing, t: State, fs: seq<ParentOrder.Folder>, into: Id, mint: seq<Id>,
      j: nat,
      k: nat, id: Id)
    requires FoldersRenamed(Begin(acc, listing), t, fs, into, mint) && |Begin(acc, listing).takenFolders| + |fs| <= 998
    requires j < |fs| && k < |fs| && j != k && Named(fs[j].name) && Named(fs[k].name)
    requires id in acc.folders && id in listing.folders
    ensures j < |mint| && k < |mint| && mint[j] in t.acc.folders && mint[k] in t.acc.folders
    ensures Lower(t.acc.folders[mint[j]].name) != Lower(t.acc.folders[mint[k]].name)
    ensures Lower(acc.folders[id].name) != Lower(t.acc.folders[mint[k]].name)
  {
    hide FoldersRenamed, Lower, Taken, Chosen, Named, KeyOf;
    var s := Begin(acc, listing);
    FolderNamed(s, t, fs, into, mint, j);
    FolderNamed(s, t, fs, into, mint, k);
    assert |s.takenFolders.Keys| == |s.takenFolders|;
    ChosenApart(s.takenFolders.Keys, FolderWants(fs));
    TakenTracks(FolderNames(acc), listing.folders);
    assert Lower(FolderNames(acc)[id]) in s.takenFolders;
  }

  lemma ConnNamed(s: State, t: State, items: seq<Item<Conn>>, into: Id, mint: seq<Id>, k: nat)
    requires ConnsRenamedCarried(s, t, items, into, mint) && |s.takenConns| + |items| <= 998
    requires k < |items| && Named(items[k].row.name)
    ensures k < |mint| && mint[k] in t.acc.conns
    ensures var wants := ConnWants(t.folderIds, into, items);
            && |wants| == |items|
            && KeyOf(wants[k].prefix, Chosen(s.takenConns, wants)[k])
               == Slot(t.acc.conns[mint[k]].folder, t.acc.conns[mint[k]].name)
  {
    hide Lower, Trim, Chosen, InUse, AllGiven, Named, PlaceMeant, ChainFrom;
    var wants := ConnWants(t.folderIds, into, items);
    ChosenTrimmed(s.takenConns, wants, k);
    assert RenamedCarried(t, items, into, mint, k, Chosen(s.takenConns, wants)[k]);
  }

  /** And the same of connections in one folder. */
  lemma ConnsApart(acc: Account, listing: Listing, t: State, items: seq<Item<Conn>>, into: Id, mint: seq<Id>, j: nat,
      k: nat, id: Id)
    requires ConnsRenamedCarried(Begin(acc, listing), t, items, into, mint)
    requires |Begin(acc, listing).takenConns| + |items| <= 998
    requires j < |items| && k < |items| && j != k && Named(items[j].row.name) && Named(items[k].row.name)
    requires id in acc.conns
    ensures j < |mint| && k < |mint| && mint[j] in t.acc.conns && mint[k] in t.acc.conns
    ensures !SameSlot(t.acc.conns[mint[j]], t.acc.conns[mint[k]]) && !SameSlot(acc.conns[id], t.acc.conns[mint[k]])
  {
    hide ConnsRenamedCarried, Lower, Taken, Chosen, Named, KeyOf;
    var s := Begin(acc, listing);
    ConnNamed(s, t, items, into, mint, j);
    ConnNamed(s, t, items, into, mint, k);
    ChosenApart(s.takenConns, ConnWants(t.folderIds, into, items));
    assert Slot(acc.conns[id].folder, acc.conns[id].name) in s.takenConns;
  }
}
