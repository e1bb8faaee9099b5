/** A company's chart of accounts: parent links beside materialised paths, and what creating
    and renaming accounts does to their agreement. */
module AccountTree {
  import opened Prelude
  import opened Slugs

  type AccountId = nat

  datatype Account = Account(name: string, parent: Option<AccountId>, isGroup: bool, path: string)

  type Chart = map<AccountId, Account>

  datatype Refusal = NotFound | NotAGroup | Duplicate

  // Where an account with this parent and name belongs.
  function PathFor(ch: Chart, parent: Option<AccountId>, name: string): string
    requires parent.Some? ==> parent.value in ch
  {
    if parent.None? then Slugify(name) else ch[parent.value].path + "." + Slugify(name)
  }

  // Every path is the parent's path, a dot and the account's own slug.
  ghost predicate Rooted(ch: Chart, id: AccountId)
    requires id in ch
  {
    if ch[id].parent.None? then ch[id].path == Slugify(ch[id].name)
    else ch[id].parent.value in ch && ch[id].path == ch[ch[id].parent.value].path + "." + Slugify(ch[id].name)
  }

  ghost predicate Consistent(ch: Chart) {
    forall id <- ch :: Rooted(ch, id)
  }

  ghost predicate PathsUnique(ch: Chart) {
    forall a, b :: a in ch && b in ch && ch[a].path == ch[b].path ==> a == b
  }

  ghost predicate SiblingSlugsDistinct(ch: Chart) {
    forall a, b | a in ch && b in ch && ch[a].parent == ch[b].parent
      && Slugify(ch[a].name) == Slugify(ch[b].name) :: a == b
  }

  // Strict descent by parent links; consistent paths shorten towards the root.
  ghost predicate Descends(ch: Chart, d: AccountId, a: AccountId)
    requires Consistent(ch) && d in ch
    decreases |ch[d].path|
  {
    assert Rooted(ch, d);
    ch[d].parent.Some? && (ch[d].parent.value == a || Descends(ch, ch[d].parent.value, a))
  }

  // --- Strings and the tree ---

  function LastDot(x: string): (i: int)
    ensures -1 <= i < |x|
  {
    if x == "" then -1 else if x[|x|-1] == '.' then |x| - 1 else LastDot(x[..|x|-1])
  }

  lemma {:induction false} LastDotOfChild(p: string, s: string)
    requires '.' !in s
    ensures LastDot(p + "." + s) == |p|
  {
    var x := p + "." + s;
    if s != "" {
      assert x[|x|-1] == s[|s|-1] && x[..|x|-1] == p + "." + s[..|s|-1];
      LastDotOfChild(p, s[..|s|-1]);
    }
  }

  lemma {:induction false} DotsUpToLast(x: string, i: nat)
    requires i < |x| && x[i] == '.'
    ensures i <= LastDot(x)
  {
    if i < |x| - 1 && x[|x|-1] != '.' {
      DotsUpToLast(x[..|x|-1], i);
    }
  }

  lemma DotAfterPrefix(q: string, x: string)
    requires q + "." <= x
    ensures |q| < |x| && x[|q|] == '.' && x[..|q|] == q && '.' in x
  {
    assert x[|q|] == (q + ".")[|q|];
    assert x[..|q|] == (q + ".")[..|q|];
  }

  // Two texts cut at a dot after which no dot follows are cut at the same place.
  lemma LastDotUnique(p: string, s: string, q: string, t: string)
    requires '.' !in s && '.' !in t
    requires p + "." + s == q + "." + t
    ensures p == q && s == t
  {
    var x, y := p + "." + s, q + "." + t;
    LastDotOfChild(p, s);
    LastDotOfChild(q, t);
    assert x[..|p|] == p && y[..|q|] == q && x[|p|+1..] == s && y[|q|+1..] == t;
  }

  // A prefix that ends in a dot is the parent's path, or such a prefix of it.
  lemma PrefixOfChild(q: string, p: string, s: string)
    requires '.' !in s && q + "." <= p + "." + s
    ensures q == p || q + "." <= p
  {
    var x := p + "." + s;
    DotAfterPrefix(q, x);
    DotsUpToLast(x, |q|);
    LastDotOfChild(p, s);
    assert x[..|p|] == p;
  }

  // Whatever precedes a dot in a path is the path of an ancestor.
  lemma {:induction false} Climb(ch: Chart, d: AccountId, q: string) returns (e: AccountId)
    requires Consistent(ch) && d in ch && q + "." <= ch[d].path
    ensures e in ch && Descends(ch, d, e) && ch[e].path == q
    decreases |ch[d].path|
  {
    assert Rooted(ch, d);
    SlugIsLabel(ch[d].name);
    var slug := Slugify(ch[d].name);
    DotAfterPrefix(q, ch[d].path);
    if ch[d].parent.None? {
      assert false;
    }
    var parent := ch[d].parent.value;
    PrefixOfChild(q, ch[parent].path, slug);
    if q == ch[parent].path {
      e := parent;
    } else {
      e := Climb(ch, parent, q);
    }
  }

  lemma {:induction false} DescentIsPrefix(ch: Chart, d: AccountId, a: AccountId)
    requires Consistent(ch) && d in ch && a in ch && Descends(ch, d, a)
    ensures ch[a].path + "." <= ch[d].path
    decreases |ch[d].path|
  {
    assert Rooted(ch, d);
    var parent := ch[d].parent.value;
    if parent != a {
      DescentIsPrefix(ch, parent, a);
    }
  }

  // No other account has this account's path.
  ghost predicate SolePath(ch: Chart, a: AccountId)
    requires a in ch
  {
    forall b <- ch :: ch[b].path == ch[a].path ==> b == a
  }

  /** The string test used for cascading agrees with the tree: a path starts with the
      account's path and a dot if and only if its account is a strict descendant. */
  lemma PrefixIffDescends(ch: Chart, a: AccountId, d: AccountId)
    requires Consistent(ch) && a in ch && d in ch && SolePath(ch, a)
    ensures ch[a].path + "." <= ch[d].path <==> Descends(ch, d, a)
  {
    if ch[a].path + "." <= ch[d].path {
      var e := Climb(ch, d, ch[a].path);
    }
    if Descends(ch, d, a) {
      DescentIsPrefix(ch, d, a);
    }
  }

  // Paths are unique exactly when siblings have distinct slugs.
  lemma UniqueIffSiblingsDistinct(ch: Chart)
    requires Consistent(ch)
    ensures PathsUnique(ch) <==> SiblingSlugsDistinct(ch)
  {
    if PathsUnique(ch) {
      forall a, b | a in ch && b in ch && ch[a].parent == ch[b].parent
        && Slugify(ch[a].name) == Slugify(ch[b].name)
        ensures a == b
      {
        assert Rooted(ch, a) && Rooted(ch, b);
      }
    }
    if SiblingSlugsDistinct(ch) {
      forall a, b | a in ch && b in ch && ch[a].path == ch[b].path
        ensures a == b
      {
        SamePathSameAccount(ch, a, b);
      }
    }
  }

  lemma RootsHaveNoDot(ch: Chart, a: AccountId)
    requires a in ch && Rooted(ch, a)
    ensures '.' in ch[a].path <==> ch[a].parent.Some?
  {
    SlugIsLabel(ch[a].name);
    if ch[a].parent.Some? {
      assert ch[a].path[|ch[ch[a].parent.value].path|] == '.';
    }
  }

  lemma {:induction false} SamePathSameAccount(ch: Chart, a: AccountId, b: AccountId)
    requires Consistent(ch) && SiblingSlugsDistinct(ch)
    requires a in ch && b in ch && ch[a].path == ch[b].path
    ensures a == b
    decreases |ch[a].path|
  {
    assert Rooted(ch, a) && Rooted(ch, b);
    SlugIsLabel(ch[a].name);
    SlugIsLabel(ch[b].name);
    RootsHaveNoDot(ch, a);
    RootsHaveNoDot(ch, b);
    if ch[a].parent.Some? && ch[b].parent.Some? {
      var p, q := ch[a].parent.value, ch[b].parent.value;
      LastDotUnique(ch[p].path, Slugify(ch[a].name), ch[q].path, Slugify(ch[b].name));
      SamePathSameAccount(ch, p, q);
    }
  }

  // --- The operations ---

  predicate Taken(ch: Chart, name: string, parent: Option<AccountId>, except: Option<AccountId>) {
    exists b <- ch :: ch[b].name == name && ch[b].parent == parent && Some(b) != except
  }

  function Rewritten(path: string, oldPath: string, newPath: string): string {
    if path == oldPath then newPath
    else if oldPath + "." <= path then newPath + path[|oldPath|..]
    else path
  }

  lemma RewrittenMeans(path: string, oldPath: string, newPath: string)
    ensures path == oldPath ==> Rewritten(path, oldPath, newPath) == newPath
    ensures path != oldPath && oldPath + "." <= path ==>
      |oldPath| <= |path| && Rewritten(path, oldPath, newPath) == newPath + path[|oldPath|..]
    ensures path != oldPath && !(oldPath + "." <= path) ==> Rewritten(path, oldPath, newPath) == path
  {
  }

  // The chart with the paths of some accounts rewritten.
  function PathsRewritten(ch: Chart, done: set<AccountId>, oldPath: string, newPath: string): (r: Chart)
    ensures r.Keys == ch.Keys
  {
    map id | id in ch :: if id in done then ch[id].(path := Rewritten(ch[id].path, oldPath, newPath)) else ch[id]
  }

  lemma NothingRewritten(ch: Chart, oldPath: string, newPath: string)
    ensures PathsRewritten(ch, ch.Keys - ch.Keys, oldPath, newPath) == ch
  {
  }

  lemma OneMoreRewritten(ch: Chart, done: set<AccountId>, oldPath: string, newPath: string, id: AccountId)
    requires id in ch && id !in done
    ensures var t := PathsRewritten(ch, done, oldPath, newPath);
      var path := Rewritten(t[id].path, oldPath, newPath);
      && PathsRewritten(ch, done + {id}, oldPath, newPath) == t[id := t[id].(path := path)]
      && (path == t[id].path ==> t[id := t[id].(path := path)] == t)
  {
    hide Rewritten;
  }

  // The effect of an accepted rename.
  function Renamed(ch: Chart, id: AccountId, name: string): (r: Chart)
    requires id in ch && (ch[id].parent.Some? ==> ch[id].parent.value in ch)
    ensures r.Keys == ch.Keys
  {
    var newPath := PathFor(ch, ch[id].parent, name);
    var t := if newPath == ch[id].path then ch else PathsRewritten(ch, ch.Keys, ch[id].path, newPath);
    t[id := t[id].(name := name)]
  }

  class ChartOfAccounts {
    var accounts: Chart

    ghost predicate ParentsPresent()
      reads this
    {
      forall id <- accounts :: accounts[id].parent.Some? ==> accounts[id].parent.value in accounts
    }

    method Create(id: AccountId, name: string, parent: AccountId, isGroup: bool) returns (r: Result<(), Refusal>)
      requires id !in accounts
      modifies this
      ensures r == Err(NotFound) <==> parent !in old(accounts)
      ensures r == Err(NotAGroup) <==> old(parent in accounts && !accounts[parent].isGroup)
      ensures r == Err(Duplicate) <==>
        old(parent in accounts && accounts[parent].isGroup
            && exists b <- accounts :: accounts[b].name == name && accounts[b].parent == Some(parent))
      ensures r.Ok? ==>
        accounts == old(accounts)[id := Account(name, Some(parent), isGroup, old(accounts[parent].path) + "." + Slugify(name))]
      ensures r.Err? ==> accounts == old(accounts)
    {
      if parent !in accounts {
        return Err(NotFound);
      }
      if !accounts[parent].isGroup {
        return Err(NotAGroup);
      }
      if Taken(accounts, name, Some(parent), None) {
        return Err(Duplicate);
      }
      var path := accounts[parent].path + "." + Slugify(name);
      accounts := accounts[id := Account(name, Some(parent), isGroup, path)];
      return Ok(());
    }

    method RenamePath(id: AccountId, name: string)
      requires id in accounts && ParentsPresent()
      modifies this
      ensures accounts ==
        var newPath := PathFor(old(accounts), old(accounts[id].parent), name);
        if newPath == old(accounts[id].path) then old(accounts)
        else PathsRewritten(old(accounts), old(accounts).Keys, old(accounts[id].path), newPath)
    {
      var oldPath := accounts[id].path;
      var slug := Slugify(name);
      var newPath := slug;
      if accounts[id].parent.Some? {
        newPath := accounts[accounts[id].parent.value].path + "." + slug;
      }
      if newPath == oldPath {
        return;
      }
      ghost var before := accounts;
      var rows := accounts.Keys;
      NothingRewritten(before, oldPath, newPath);
      while rows != {}
        invariant rows <= before.Keys && accounts == PathsRewritten(before, before.Keys - rows, oldPath, newPath)
        decreases rows
      {
        hide Rewritten, PathsRewritten;
        var r :| r in rows;
        OneMoreRewritten(before, before.Keys - rows, oldPath, newPath, r);
        assert before.Keys - rows + {r} == before.Keys - (rows - {r});
        RewrittenMeans(accounts[r].path, oldPath, newPath);
        var path := accounts[r].path;
        if path == oldPath {
          accounts := accounts[r := accounts[r].(path := newPath)];
        } else if oldPath + "." <= path {
          accounts := accounts[r := accounts[r].(path := newPath + path[|oldPath|..])];
        }
        rows := rows - {r};
      }
      assert before.Keys - {} == before.Keys;
    }

    method Rename(id: AccountId, name: string) returns (r: Result<(), Refusal>)
      requires ParentsPresent()
      modifies this
      ensures r == Err(NotFound) <==> id !in old(accounts)
      ensures r == Err(Duplicate) <==>
        old(id in accounts && name != accounts[id].name
            && exists b <- accounts :: b != id && accounts[b].name == name && accounts[b].parent == accounts[id].parent)
      ensures r != Err(NotAGroup)
      ensures r.Ok? ==>
        accounts == (if name == old(accounts[id].name) then old(accounts) else Renamed(old(accounts), id, name))
      ensures r.Err? ==> accounts == old(accounts)
    {
      if id !in accounts {
        return Err(NotFound);
      }
      if name != accounts[id].name {
        if Taken(accounts, name, accounts[id].parent, Some(id)) {
          return Err(Duplicate);
        }
        RenamePath(id, name);
        accounts := accounts[id := accounts[id].(name := name)];
      }
      return Ok(());
    }
  }

  // --- What a rename preserves ---

  // The new path is never inside the old subtree.
  lemma NewPathOutside(ch: Chart, id: AccountId, name: string)
    requires Consistent(ch) && id in ch && Rooted(ch, id)
    ensures !(ch[id].path + "." <= PathFor(ch, ch[id].parent, name))
  {
    var newPath := PathFor(ch, ch[id].parent, name);
    SlugIsLabel(name);
    if ch[id].parent.Some? {
      if ch[id].path + "." <= newPath {
        PrefixOfChild(ch[id].path, ch[ch[id].parent.value].path, Slugify(name));
      }
    } else if ch[id].path + "." <= newPath {
      DotAfterPrefix(ch[id].path, newPath);
    }
  }

  // How a rewrite acts on a child, given how it acts on the parent.
  lemma RewriteChild(oldPath: string, newPath: string, parent: string, slug: string)
    requires '.' !in slug && parent + "." + slug != oldPath
    ensures Rewritten(parent + "." + slug, oldPath, newPath) == Rewritten(parent, oldPath, newPath) + "." + slug
  {
    var path := parent + "." + slug;
    if oldPath + "." <= path {
      PrefixOfChild(oldPath, parent, slug);
      if parent == oldPath {
        assert path[|oldPath|..] == "." + slug;
        assert newPath + ("." + slug) == newPath + "." + slug;
      } else {
        assert path[|oldPath|..] == parent[|oldPath|..] + "." + slug;
        assert newPath + (parent[|oldPath|..] + "." + slug) == newPath + parent[|oldPath|..] + "." + slug;
      }
    } else {
      assert parent + "." <= path;
      assert parent <= path;
    }
  }

  lemma RenameConsistentAt(ch: Chart, id: AccountId, name: string, b: AccountId)
    requires Consistent(ch) && id in ch && Rooted(ch, id) && b in ch
    requires ch[b].path == ch[id].path ==> b == id
    ensures Rooted(Renamed(ch, id, name), b)
  {
    var t := Renamed(ch, id, name);
    var oldPath, newPath := ch[id].path, PathFor(ch, ch[id].parent, name);
    assert Rooted(ch, b);
    SlugIsLabel(ch[b].name);
    var slug := Slugify(ch[b].name);
    if newPath != oldPath {
      if ch[b].parent.Some? {
        var p := ch[b].parent.value;
        assert t[p].path == Rewritten(ch[p].path, oldPath, newPath);
        if b == id {
          // The parent of the renamed account is outside its subtree.
          assert |ch[p].path| < |oldPath|;
        } else {
          RewriteChild(oldPath, newPath, ch[p].path, slug);
        }
      } else if b != id && oldPath + "." <= slug {
        DotAfterPrefix(oldPath, slug);
      }
    }
  }

  // A stranger with the old path is carried along, away from its parent.
  lemma StrangerTorn(ch: Chart, id: AccountId, name: string, b: AccountId)
    requires Consistent(ch) && id in ch && Rooted(ch, id)
    requires PathFor(ch, ch[id].parent, name) != ch[id].path
    requires b in ch && b != id && ch[b].path == ch[id].path
    ensures !Rooted(Renamed(ch, id, name), b)
  {
    var t := Renamed(ch, id, name);
    assert Rooted(ch, b);
    if ch[b].parent.Some? {
      var p := ch[b].parent.value;
      assert |ch[p].path| < |ch[id].path|;
      assert t[p].path == ch[p].path;
    }
  }

  /** A rename restores "parent's path, dot, own slug" for every account if and only if the
      path does not change or no other account shared the old one. */
  lemma RenameConsistentIff(ch: Chart, id: AccountId, name: string)
    requires Consistent(ch) && id in ch && Rooted(ch, id)
    ensures Consistent(Renamed(ch, id, name)) <==>
      (PathFor(ch, ch[id].parent, name) == ch[id].path || SolePath(ch, id))
  {
    var t := Renamed(ch, id, name);
    if PathFor(ch, ch[id].parent, name) == ch[id].path {
      forall b | b in t
        ensures Rooted(t, b)
      {
        assert Rooted(ch, b);
      }
    } else if SolePath(ch, id) {
      forall b | b in t
        ensures Rooted(t, b)
      {
        RenameConsistentAt(ch, id, name, b);
      }
    } else {
      var b :| b in ch && b != id && ch[b].path == ch[id].path;
      StrangerTorn(ch, id, name, b);
    }
  }

  // Accounts outside the renamed subtree keep their paths, descendants swap exactly the
  // prefix, and parent links stay.
  lemma RenameTouchesOnlySubtree(ch: Chart, id: AccountId, name: string, b: AccountId)
    requires Consistent(ch) && id in ch && Rooted(ch, id) && SolePath(ch, id) && b in ch
    ensures var t := Renamed(ch, id, name);
      && t[b].parent == ch[b].parent
      && (b == id ==> t[b].path == PathFor(ch, ch[id].parent, name))
      && (Descends(ch, b, id) ==> ch[id].path <= ch[b].path)
      && (Descends(ch, b, id) ==> t[b].path == PathFor(ch, ch[id].parent, name) + ch[b].path[|ch[id].path|..])
      && (b != id && !Descends(ch, b, id) ==> t[b].path == ch[b].path)
  {
    hide Slugify, Descends, Consistent;
    PrefixIffDescends(ch, id, b);
    if Descends(ch, b, id) {
      assert ch[b].path[..|ch[id].path|] == ch[id].path;
      assert |ch[id].path| < |ch[b].path|;
      assert ch[id].path + ch[b].path[|ch[id].path|..] == ch[b].path;
    }
  }

  // Who descends from whom is a matter of parent links, so it does not change either.
  lemma {:induction false} RenameKeepsDescent(ch: Chart, id: AccountId, name: string, d: AccountId, a: AccountId)
    requires Consistent(ch) && id in ch && Rooted(ch, id) && Consistent(Renamed(ch, id, name)) && d in ch
    ensures Descends(Renamed(ch, id, name), d, a) <==> Descends(ch, d, a)
    decreases |ch[d].path|
  {
    assert Rooted(ch, d) && Rooted(Renamed(ch, id, name), d);
    if ch[d].parent.Some? && ch[d].parent.value != a {
      RenameKeepsDescent(ch, id, name, ch[d].parent.value, a);
    }
  }

  ghost predicate PathFree(ch: Chart, path: string) {
    forall b <- ch :: ch[b].path != path
  }

  lemma RenamedPaths(ch: Chart, id: AccountId, name: string)
    requires id in ch && Rooted(ch, id) && PathFor(ch, ch[id].parent, name) != ch[id].path
    ensures forall a <- ch ::
      Renamed(ch, id, name)[a].path == Rewritten(ch[a].path, ch[id].path, PathFor(ch, ch[id].parent, name))
  {
    hide Rewritten, PathFor;
  }

  /** A rename to a new path keeps paths unique if and only if no account had that path. */
  lemma RenameUniqueIff(ch: Chart, id: AccountId, name: string)
    requires Consistent(ch) && PathsUnique(ch) && id in ch && Rooted(ch, id)
    requires PathFor(ch, ch[id].parent, name) != ch[id].path
    ensures PathsUnique(Renamed(ch, id, name)) <==> PathFree(ch, PathFor(ch, ch[id].parent, name))
  {
    var t, newPath := Renamed(ch, id, name), PathFor(ch, ch[id].parent, name);
    NewPathOutside(ch, id, name);
    RenamedPaths(ch, id, name);
    hide Consistent, Renamed, PathFor;
    if PathFree(ch, newPath) {
      forall a, b | a in t && b in t && t[a].path == t[b].path
        ensures a == b
      {
        if InSubtree(ch, id, a) && !InSubtree(ch, id, b) {
          Separate(ch, id, newPath, a, b);
        } else if InSubtree(ch, id, b) && !InSubtree(ch, id, a) {
          Separate(ch, id, newPath, b, a);
        } else if InSubtree(ch, id, a) {
          SuffixKept(ch, id, newPath, a);
          SuffixKept(ch, id, newPath, b);
          assert t[a].path[|newPath|..] == t[b].path[|newPath|..];
        }
      }
    } else {
      var b :| b in ch && ch[b].path == newPath;
      assert t[b].path == newPath && t[id].path == newPath;
    }
  }

  ghost predicate InSubtree(ch: Chart, id: AccountId, b: AccountId)
    requires id in ch && b in ch
  {
    ch[b].path == ch[id].path || ch[id].path + "." <= ch[b].path
  }

  lemma SuffixKept(ch: Chart, id: AccountId, newPath: string, b: AccountId)
    requires id in ch && b in ch && InSubtree(ch, id, b)
    ensures ch[id].path <= ch[b].path
    ensures Rewritten(ch[b].path, ch[id].path, newPath) == newPath + ch[b].path[|ch[id].path|..]
    ensures ch[b].path == ch[id].path + ch[b].path[|ch[id].path|..]
  {
    if ch[b].path != ch[id].path {
      assert ch[b].path[..|ch[id].path|] == (ch[id].path + ".")[..|ch[id].path|] == ch[id].path;
    }
  }

  // A rewritten path and an untouched one differ when the new path was free.
  lemma Separate(ch: Chart, id: AccountId, newPath: string, a: AccountId, b: AccountId)
    requires Consistent(ch) && id in ch && PathFree(ch, newPath)
    requires a in ch && b in ch && InSubtree(ch, id, a) && !InSubtree(ch, id, b)
    ensures Rewritten(ch[a].path, ch[id].path, newPath) != ch[b].path
  {
    hide Slugify, Descends, Rewritten;
    if Rewritten(ch[a].path, ch[id].path, newPath) == ch[b].path {
      SuffixKept(ch, id, newPath, a);
      var rest := ch[a].path[|ch[id].path|..];
      if ch[a].path != ch[id].path {
        DotAfterPrefix(ch[id].path, ch[a].path);
        assert rest[0] == '.';
        assert ch[b].path[..|newPath| + 1] == newPath + ".";
        var e := Climb(ch, b, newPath);
      }
    }
  }

  // --- Whole runs ---

  datatype Edit =
    | CreateAccount(id: AccountId, name: string, parent: AccountId, isGroup: bool)
    | RenameAccount(id: AccountId, name: string)

  function Accepted(ch: Chart, e: Edit): bool {
    match e
    case CreateAccount(id, name, parent, _) =>
      id !in ch && parent in ch && ch[parent].isGroup && !Taken(ch, name, Some(parent), None)
    case RenameAccount(id, name) =>
      id in ch && (ch[id].parent.Some? ==> ch[id].parent.value in ch)
      && (name == ch[id].name || !Taken(ch, name, ch[id].parent, Some(id)))
  }

  function Edited(ch: Chart, e: Edit): Chart {
    if !Accepted(ch, e) then ch
    else match e
      case CreateAccount(id, name, parent, isGroup) =>
        ch[id := Account(name, Some(parent), isGroup, PathFor(ch, Some(parent), name))]
      case RenameAccount(id, name) =>
        if name == ch[id].name then ch else Renamed(ch, id, name)
  }

  // The path the edit puts an account on is free, or is the account's own.
  ghost predicate FreshPath(ch: Chart, e: Edit) {
    Accepted(ch, e) ==>
      match e
      case CreateAccount(_, name, parent, _) => PathFree(ch, PathFor(ch, Some(parent), name))
      case RenameAccount(id, name) =>
        var path := PathFor(ch, ch[id].parent, name);
        path == ch[id].path || PathFree(ch, path)
  }

  ghost predicate Sound(ch: Chart) {
    Consistent(ch) && PathsUnique(ch)
  }

  lemma CreateSoundIff(ch: Chart, id: AccountId, name: string, parent: AccountId, isGroup: bool)
    requires Sound(ch) && Accepted(ch, CreateAccount(id, name, parent, isGroup))
    ensures var t := Edited(ch, CreateAccount(id, name, parent, isGroup));
      Consistent(t) && (PathsUnique(t) <==> PathFree(ch, PathFor(ch, Some(parent), name)))
  {
    var t := Edited(ch, CreateAccount(id, name, parent, isGroup));
    forall b | b in t
      ensures Rooted(t, b)
    {
      if b != id { assert Rooted(ch, b); }
    }
    if !PathFree(ch, PathFor(ch, Some(parent), name)) {
      var b :| b in ch && ch[b].path == PathFor(ch, Some(parent), name);
      assert b in t && t[b].path == t[id].path && b != id;
    }
  }

  /** One edit of a sound chart leaves it sound if and only if the path it assigns is fresh,
      which the duplicate check on names does not establish. */
  lemma EditSoundIff(ch: Chart, e: Edit)
    requires Sound(ch)
    ensures Sound(Edited(ch, e)) <==> FreshPath(ch, e)
  {
    hide Taken, Renamed, PathsUnique, PathFree;
    if Accepted(ch, e) {
      match e
      case CreateAccount(id, name, parent, isGroup) => CreateSoundIff(ch, id, name, parent, isGroup);
      case RenameAccount(id, name) =>
        assert Rooted(ch, id);
        if name != ch[id].name {
          RenameSoundIff(ch, id, name);
        }
    }
  }

  lemma RenameSoundIff(ch: Chart, id: AccountId, name: string)
    requires Sound(ch) && id in ch && Rooted(ch, id)
    ensures var path := PathFor(ch, ch[id].parent, name);
      Sound(Renamed(ch, id, name)) <==> path == ch[id].path || PathFree(ch, path)
  {
    hide Consistent, PathFor, Renamed;
    RenameConsistentIff(ch, id, name);
    if PathFor(ch, ch[id].parent, name) == ch[id].path {
      SamePaths(ch, id, name);
    } else {
      RenameUniqueIff(ch, id, name);
    }
  }

  lemma SamePaths(ch: Chart, id: AccountId, name: string)
    requires id in ch && Rooted(ch, id) && PathFor(ch, ch[id].parent, name) == ch[id].path
    ensures forall a <- ch :: Renamed(ch, id, name)[a].path == ch[a].path
  {
  }

  function AfterEdits(ch: Chart, es: seq<Edit>): Chart
    decreases |es|
  {
    if es == [] then ch else AfterEdits(Edited(ch, es[0]), es[1..])
  }

  ghost predicate AlwaysFresh(ch: Chart, es: seq<Edit>)
    decreases |es|
  {
    es == [] || (FreshPath(ch, es[0]) && AlwaysFresh(Edited(ch, es[0]), es[1..]))
  }

  ghost predicate AlwaysSound(ch: Chart, es: seq<Edit>)
    decreases |es|
  {
    Sound(ch) && (es == [] || AlwaysSound(Edited(ch, es[0]), es[1..]))
  }

  /** Over every run from a sound chart: it stays sound throughout exactly when every edit
      assigned a fresh path. */
  lemma {:induction false} RunSoundIff(ch: Chart, es: seq<Edit>)
    requires Sound(ch)
    ensures AlwaysSound(ch, es) <==> AlwaysFresh(ch, es)
    ensures AlwaysFresh(ch, es) ==> Sound(AfterEdits(ch, es))
    decreases |es|
  {
    if es != [] {
      EditSoundIff(ch, es[0]);
      if FreshPath(ch, es[0]) {
        RunSoundIff(Edited(ch, es[0]), es[1..]);
      }
    }
  }

  const ROOT := Account("R", None, true, "r")
  const FIRST := CreateAccount(1, "A B", 0, false)
  const SECOND := CreateAccount(2, "A-B", 0, false)
  const ALONE: Chart := map[0 := ROOT]
  const ONE: Chart := ALONE[1 := Account("A B", Some(0), false, "r.a_b")]
  const TWINS: Chart := ONE[2 := Account("A-B", Some(0), false, "r.a_b")]

  lemma TwinPath(ch: Chart)
    requires 0 in ch && ch[0] == ROOT
    ensures PathFor(ch, Some(0), "A B") == PathFor(ch, Some(0), "A-B") == "r.a_b"
    ensures PathFor(ch, Some(0), "C") == "r.c" && PathFor(ch, None, "R") == "r"
  {
    hide Slugify;
    SomeSlugs();
    assert "r" + "." + "a_b" == "r.a_b" && "r" + "." + "c" == "r.c";
  }

  lemma FirstCreated()
    ensures Sound(ALONE) && Accepted(ALONE, FIRST) && Edited(ALONE, FIRST) == ONE
  {
    hide Slugify;
    TwinPath(ALONE);
    assert Rooted(ALONE, 0);
  }

  lemma SecondCreated()
    ensures Accepted(ONE, SECOND) && Edited(ONE, SECOND) == TWINS
  {
    hide Slugify;
    TwinPath(ONE);
    assert "A B"[1] != "A-B"[1];
  }

  lemma TwinsConsistent()
    ensures Consistent(TWINS) && !SolePath(TWINS, 1)
  {
    hide Slugify;
    TwinPath(TWINS);
    assert Rooted(TWINS, 0) && Rooted(TWINS, 1) && Rooted(TWINS, 2);
  }

  lemma RenameFree()
    ensures Accepted(TWINS, RenameAccount(1, "C"))
    ensures Edited(TWINS, RenameAccount(1, "C")) == Renamed(TWINS, 1, "C")
  {
    assert |"C"| != |"A B"| && |"C"| != |"A-B"| && "C"[0] != "R"[0];
  }

  /** "A B" and "A-B" pass the duplicate check as siblings yet share the path "r.a_b"; renaming
      the first one drags the second along and breaks the chart. */
  lemma TwinsTorn()
    ensures Sound(ALONE) && AfterEdits(ALONE, [FIRST, SECOND]) == TWINS && Consistent(TWINS)
    ensures Accepted(TWINS, RenameAccount(1, "C")) && !Consistent(Edited(TWINS, RenameAccount(1, "C")))
  {
    hide Slugify, Edited, Accepted, Renamed, Consistent, SolePath;
    FirstCreated();
    SecondCreated();
    TwinsConsistent();
    RenameFree();
    assert [FIRST, SECOND][1..] == [SECOND] && [SECOND][1..] == [];
    assert AfterEdits(TWINS, []) == TWINS;
    assert AfterEdits(ONE, [SECOND]) == TWINS;
    TwinPath(TWINS);
    assert |"r.c"| != |"r.a_b"|;
    assert Rooted(TWINS, 1);
    RenameConsistentIff(TWINS, 1, "C");
  }

  lemma SomeSlugs()
    ensures Slugify("R") == "r" && Slugify("C") == "c" && Slugify("A B") == Slugify("A-B") == "a_b"
  {
    hide Slugify;
    assert LowerAll("R") == LowerAll("r") && LowerAll("C") == LowerAll("c");
    LabelIsItsSlug("r");
    LabelIsItsSlug("c");
    LowerDecides("R", "r");
    LowerDecides("C", "c");
    assert "a" + " " + "b" == "a b" && "a" + "-" + "b" == "a-b";
    GapBecomesOne("A B", "a", " ", "b");
    GapBecomesOne("A-B", "a", "-", "b");
  }
}
