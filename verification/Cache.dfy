/** Cleaning the module cache: files are grouped, groups ordered oldest first,
    and removed until the cache is below its limit. */
module Cache {

  datatype Stat = Stat(size: nat, mtime: int)

  type Files = map<string, Stat>

  /** cache_ent_info: the files that belong together, their size in all and the
      newest modification time. */
  datatype Entry = Entry(paths: seq<string>, size: nat, mtime: int)

  // ----- the order of removal -----

  /** std::string::operator<. */
  predicate StrLess(a: string, b: string) {
    b != [] && (a == [] || a[0] < b[0] || (a[0] == b[0] && StrLess(a[1..], b[1..])))
  }

  /** The first path that differs decides. */
  predicate PathsLess(a: seq<string>, b: seq<string>) {
    a != [] && b != [] && (if a[0] != b[0] then StrLess(a[0], b[0]) else PathsLess(a[1..], b[1..]))
  }

  predicate Less(a: Entry, b: Entry) {
    if a.mtime != b.mtime then a.mtime < b.mtime
    else if a.size != b.size then a.size < b.size
    else if |a.paths| != |b.paths| then |a.paths| < |b.paths|
    else PathsLess(a.paths, b.paths)
  }

  lemma {:induction false} StrTotal(a: string, b: string)
    ensures a == b || StrLess(a, b) || StrLess(b, a)
    ensures !(StrLess(a, b) && StrLess(b, a)) && !StrLess(a, a)
    decreases |a|
  {
    if a != [] {
      StrTotal(a[1..], a[1..]);
      if b != [] {
        StrTotal(a[1..], b[1..]);
        if a[0] == b[0] && a[1..] == b[1..] { assert a == [a[0]] + a[1..] && b == [b[0]] + b[1..]; }
      }
    }
  }

  lemma {:induction false} StrTrans(a: string, b: string, c: string)
    requires StrLess(a, b) && StrLess(b, c)
    ensures StrLess(a, c)
    decreases |a|
  {
    if a != [] && a[0] == b[0] == c[0] { StrTrans(a[1..], b[1..], c[1..]); }
  }

  lemma {:induction false} PathsTotal(a: seq<string>, b: seq<string>)
    requires |a| == |b|
    ensures a == b || PathsLess(a, b) || PathsLess(b, a)
    ensures !(PathsLess(a, b) && PathsLess(b, a)) && (a == b ==> !PathsLess(a, b))
  {
    if a != [] {
      StrTotal(a[0], b[0]);
      PathsTotal(a[1..], b[1..]);
      if a[0] == b[0] && a[1..] == b[1..] { assert a == [a[0]] + a[1..] && b == [b[0]] + b[1..]; }
    }
  }

  lemma {:induction false} PathsTrans(a: seq<string>, b: seq<string>, c: seq<string>)
    requires |a| == |b| == |c| && PathsLess(a, b) && PathsLess(b, c)
    ensures PathsLess(a, c)
  {
    if a[0] == b[0] == c[0] {
      PathsTrans(a[1..], b[1..], c[1..]);
    } else {
      StrTotal(a[0], c[0]);
      if a[0] != b[0] && b[0] != c[0] {
        StrTrans(a[0], b[0], c[0]);
        StrTotal(a[0], a[0]);
      }
    }
  }

  /** The comparison is a strict total order. */
  lemma LessTotal(a: Entry, b: Entry)
    ensures a == b || Less(a, b) || Less(b, a)
    ensures !(Less(a, b) && Less(b, a)) && !Less(a, a)
  {
    PathsTotal(a.paths, a.paths);
    if |a.paths| == |b.paths| { PathsTotal(a.paths, b.paths); }
  }

  lemma LessTrans(a: Entry, b: Entry, c: Entry)
    requires Less(a, b) && Less(b, c)
    ensures Less(a, c)
  {
    if |a.paths| == |b.paths| == |c.paths| && a.mtime == b.mtime == c.mtime && a.size == b.size == c.size {
      PathsTrans(a.paths, b.paths, c.paths);
    }
  }

  // ----- the ordered set -----

  ghost predicate Ordered(s: seq<Entry>) {
    forall i, j | 0 <= i < j < |s| :: Less(s[i], s[j])
  }

  function Total(s: seq<Entry>): nat {
    if s == [] then 0 else s[0].size + Total(s[1..])
  }

  lemma {:induction false} TotalInsert(s: seq<Entry>, k: nat, e: Entry)
    requires k <= |s|
    ensures Total(s[..k] + [e] + s[k..]) == Total(s) + e.size
    decreases k
  {
    var t := s[..k] + [e] + s[k..];
    if k == 0 {
      assert t[1..] == s;
    } else {
      assert t[1..] == s[1..][..k - 1] + [e] + s[1..][k - 1..];
      TotalInsert(s[1..], k - 1, e);
    }
  }

  /** std::set::insert: e takes its place in the order, unless it is there. */
  method Insert(s: seq<Entry>, e: Entry) returns (t: seq<Entry>, added: bool)
    requires Ordered(s)
    ensures Ordered(t) && added == (e !in s) && |t| == |s| + if added then 1 else 0
    ensures forall x :: x in t <==> x in s || x == e
    ensures Total(t) == Total(s) + if added then e.size else 0
  {
    var k := 0;
    while k < |s| && Less(s[k], e)
      invariant 0 <= k <= |s| && forall i | 0 <= i < k :: Less(s[i], e)
    {
      k := k + 1;
    }
    if k < |s| { LessTotal(s[k], e); }
    if k < |s| && !Less(e, s[k]) {
      return s, false;
    }
    t, added := s[..k] + [e] + s[k..], true;
    TotalInsert(s, k, e);
    forall i | k <= i < |s| ensures Less(e, s[i]) {
      if i > k { LessTrans(e, s[k], s[i]); }
    }
    if e in s {
      var i :| 0 <= i < |s| && s[i] == e;
      LessTotal(e, e);
    }
  }

  // ----- grouping -----

  /** The paths with key k, in order. */
  function Group(paths: seq<string>, keyOf: string -> string, k: string): seq<string> {
    if paths == [] then []
    else Group(paths[..|paths| - 1], keyOf, k) + if keyOf(paths[|paths| - 1]) == k then [paths[|paths| - 1]] else []
  }

  lemma {:induction false} GroupHas(paths: seq<string>, keyOf: string -> string, k: string)
    ensures forall p :: p in Group(paths, keyOf, k) <==> p in paths && keyOf(p) == k
  {
    if paths != [] {
      var rest, last := paths[..|paths| - 1], paths[|paths| - 1];
      GroupHas(rest, keyOf, k);
      assert paths == rest + [last];
    }
  }

  predicate Distinct<T(==)>(s: seq<T>) {
    forall i, j | 0 <= i < j < |s| :: s[i] != s[j]
  }

  /** The groups of the paths, and their keys as they turned up. */
  ghost predicate Grouped(paths: seq<string>, keyOf: string -> string, groups: map<string, seq<string>>,
                          keys: seq<string>)
  {
    Distinct(keys) && (forall k :: k in keys <==> k in groups)
    && (forall p | p in paths :: keyOf(p) in groups)
    && (forall k | k in groups :: groups[k] == Group(paths, keyOf, k) && groups[k] != [])
  }

  lemma GroupNext(paths: seq<string>, keyOf: string -> string, p: string)
    ensures forall k :: Group(paths + [p], keyOf, k) == Group(paths, keyOf, k) + if keyOf(p) == k then [p] else []
  {
    assert (paths + [p])[..|paths|] == paths;
  }

  lemma NoGroup(paths: seq<string>, keyOf: string -> string, k: string)
    requires forall p | p in paths :: keyOf(p) != k
    ensures Group(paths, keyOf, k) == []
  {
    GroupHas(paths, keyOf, k);
  }

  method GroupFiles(paths: seq<string>, keyOf: string -> string)
    returns (groups: map<string, seq<string>>, keys: seq<string>)
    ensures Grouped(paths, keyOf, groups, keys)
  {
    groups, keys := map[], [];
    for i := 0 to |paths|
      invariant Grouped(paths[..i], keyOf, groups, keys)
    {
      var p := paths[i];
      var k := keyOf(p);
      GroupNext(paths[..i], keyOf, p);
      assert paths[..i + 1] == paths[..i] + [p];
      if k !in groups {
        NoGroup(paths[..i], keyOf, k);
        keys := keys + [k];
      }
      groups := groups[k := (if k in groups then groups[k] else []) + [p]];
    }
    assert paths[..|paths|] == paths;
  }

  // ----- sizes -----

  function SizeIn(files: Files, p: string): nat {
    if p in files then files[p].size else 0
  }

  function SizeOf(files: Files, paths: seq<string>): nat {
    if paths == [] then 0 else SizeOf(files, paths[..|paths| - 1]) + SizeIn(files, paths[|paths| - 1])
  }

  function Newest(files: Files, paths: seq<string>): int {
    if paths == [] then 0
    else
      var t, p := Newest(files, paths[..|paths| - 1]), paths[|paths| - 1];
      if p in files && files[p].mtime > t then files[p].mtime else t
  }

  function EntryOf(files: Files, paths: seq<string>): Entry {
    Entry(paths, SizeOf(files, paths), Newest(files, paths))
  }

  /** The constructor of cache_ent_info. */
  method MakeEntry(files: Files, paths: seq<string>) returns (e: Entry)
    ensures e == EntryOf(files, paths)
  {
    var size, mtime := 0, 0;
    for i := 0 to |paths|
      invariant size == SizeOf(files, paths[..i]) && mtime == Newest(files, paths[..i])
    {
      assert paths[..i + 1][..i] == paths[..i];
      if paths[i] in files {
        size := size + files[paths[i]].size;
        if files[paths[i]].mtime > mtime { mtime := files[paths[i]].mtime; }
      }
    }
    assert paths[..|paths|] == paths;
    e := Entry(paths, size, mtime);
  }

  /** The sizes of the groups with these keys. */
  function GroupSizes(files: Files, paths: seq<string>, keyOf: string -> string, keys: seq<string>): nat {
    if keys == [] then 0
    else GroupSizes(files, paths, keyOf, keys[..|keys| - 1]) + SizeOf(files, Group(paths, keyOf, keys[|keys| - 1]))
  }

  lemma {:induction false} OnePath(files: Files, paths: seq<string>, keyOf: string -> string, keys: seq<string>,
                                   p: string)
    requires Distinct(keys)
    ensures GroupSizes(files, paths + [p], keyOf, keys) ==
            GroupSizes(files, paths, keyOf, keys) + if keyOf(p) in keys then SizeIn(files, p) else 0
    decreases |keys|
  {
    if keys != [] {
      var rest, k := keys[..|keys| - 1], keys[|keys| - 1];
      OnePath(files, paths, keyOf, rest, p);
      GroupNext(paths, keyOf, p);
      var g := Group(paths, keyOf, k);
      assert (g + [p])[..|g|] == g && g + [] == g;
      assert keys == rest + [k];
    }
  }

  /** The groups together have the size of all files. */
  lemma {:induction false} SizesAgree(files: Files, paths: seq<string>, keyOf: string -> string, keys: seq<string>)
    requires Distinct(keys) && forall p | p in paths :: keyOf(p) in keys
    ensures GroupSizes(files, paths, keyOf, keys) == SizeOf(files, paths)
    decreases |paths|
  {
    if paths == [] {
      NoSizes(files, keyOf, keys);
    } else {
      var rest, p := paths[..|paths| - 1], paths[|paths| - 1];
      assert paths == rest + [p];
      SizesAgree(files, rest, keyOf, keys);
      OnePath(files, rest, keyOf, keys, p);
    }
  }

  lemma {:induction false} NoSizes(files: Files, keyOf: string -> string, keys: seq<string>)
    ensures GroupSizes(files, [], keyOf, keys) == 0
    decreases |keys|
  {
    if keys != [] { NoSizes(files, keyOf, keys[..|keys| - 1]); }
  }

  // ----- the contents -----

  /** The entry is one of the groups. */
  ghost predicate IsGroup(files: Files, paths: seq<string>, keyOf: string -> string, e: Entry) {
    e.paths != [] && e == EntryOf(files, Group(paths, keyOf, keyOf(e.paths[0])))
  }

  lemma GroupIs(files: Files, paths: seq<string>, keyOf: string -> string, k: string)
    requires Group(paths, keyOf, k) != []
    ensures var e := EntryOf(files, Group(paths, keyOf, k)); IsGroup(files, paths, keyOf, e) && keyOf(e.paths[0]) == k
  {
    var g := Group(paths, keyOf, k);
    GroupHas(paths, keyOf, k);
    assert g[0] in g;
  }

  /** The ordered set holds the groups with these keys, none lost, and the sum is
      that of their sizes. */
  ghost predicate Contents(files: Files, paths: seq<string>, keyOf: string -> string, keys: seq<string>, c: seq<Entry>,
                           size: nat)
  {
    Ordered(c) && |c| == |keys| && size == Total(c) == GroupSizes(files, paths, keyOf, keys)
    && (forall e | e in c :: IsGroup(files, paths, keyOf, e) && keyOf(e.paths[0]) in keys)
    && (forall k {:trigger Holds(files, paths, keyOf, c, k)} | k in keys :: Holds(files, paths, keyOf, c, k))
  }

  ghost predicate Holds(files: Files, paths: seq<string>, keyOf: string -> string, c: seq<Entry>, k: string) {
    EntryOf(files, Group(paths, keyOf, k)) in c
  }

  lemma NewGroup(files: Files, paths: seq<string>, keyOf: string -> string, keys: seq<string>, c: seq<Entry>, size: nat,
                 k: string)
    requires Contents(files, paths, keyOf, keys, c, size) && k !in keys && Group(paths, keyOf, k) != []
    ensures EntryOf(files, Group(paths, keyOf, k)) !in c
  {
    GroupIs(files, paths, keyOf, k);
  }

  lemma ContentsNext(files: Files, paths: seq<string>, keyOf: string -> string, keys: seq<string>, c: seq<Entry>,
                     size: nat, k: string, t: seq<Entry>)
    requires Contents(files, paths, keyOf, keys, c, size) && k !in keys && Group(paths, keyOf, k) != []
    requires var e := EntryOf(files, Group(paths, keyOf, k));
      Ordered(t) && |t| == |c| + 1 && (forall x :: x in t <==> x in c || x == e) && Total(t) == Total(c) + e.size
    ensures Contents(files, paths, keyOf, keys + [k], t, size + EntryOf(files, Group(paths, keyOf, k)).size)
  {
    GroupIs(files, paths, keyOf, k);
    assert (keys + [k])[..|keys|] == keys;
    forall x | x in keys + [k] ensures Holds(files, paths, keyOf, t, x) {
      assert x != k ==> Holds(files, paths, keyOf, c, x);
    }
  }

  /** One entry made and inserted. */
  method AddGroup(files: Files, group: seq<string>, c: seq<Entry>, size: nat,
                  ghost k: string, ghost keys: seq<string>, ghost paths: seq<string>, ghost keyOf: string -> string)
    returns (t: seq<Entry>, size': nat)
    requires Contents(files, paths, keyOf, keys, c, size) && k !in keys && group == Group(paths, keyOf, k)
    requires group != []
    ensures Contents(files, paths, keyOf, keys + [k], t, size')
  {
    var e := MakeEntry(files, group);
    NewGroup(files, paths, keyOf, keys, c, size, k);
    var added;
    t, added := Insert(c, e);
    ContentsNext(files, paths, keyOf, keys, c, size, k, t);
    size' := size;
    if added { size' := size' + e.size; }
  }

  method BuildContents(files: Files, groups: map<string, seq<string>>, keys: seq<string>, ghost paths: seq<string>,
                       keyOf: string -> string)
    returns (c: seq<Entry>, size: nat)
    requires Grouped(paths, keyOf, groups, keys)
    ensures Contents(files, paths, keyOf, keys, c, size) && size == SizeOf(files, paths)
  {
    c, size := [], 0;
    for i := 0 to |keys|
      invariant Contents(files, paths, keyOf, keys[..i], c, size)
    {
      assert keys[i] in keys && keys[i] !in keys[..i];
      assert keys[..i + 1] == keys[..i] + [keys[i]];
      c, size := AddGroup(files, groups[keys[i]], c, size, keys[i], keys[..i], paths, keyOf);
    }
    assert keys[..|keys|] == keys;
    SizesAgree(files, paths, keyOf, keys);
  }

  // ----- eviction -----

  /** The files left when the first n entries are gone. */
  ghost predicate Left(files: Files, files': Files, c: seq<Entry>, n: nat)
    requires n <= |c|
  {
    forall p ::
    (p in files' <==> p in files && forall i | 0 <= i < n :: p !in c[i].paths)
    && (p in files' ==> files'[p] == files[p])
  }

  lemma {:induction false} SizeWithout(files: Files, files': Files, paths: seq<string>, keyOf: string -> string,
                                       k: string)
    requires forall p | p in paths :: SizeIn(files', p) == if keyOf(p) == k then 0 else SizeIn(files, p)
    ensures SizeOf(files', paths) + SizeOf(files, Group(paths, keyOf, k)) == SizeOf(files, paths)
    decreases |paths|
  {
    if paths != [] {
      var rest, p := paths[..|paths| - 1], paths[|paths| - 1];
      assert paths == rest + [p];
      SizeWithout(files, files', rest, keyOf, k);
      var g := Group(rest, keyOf, k);
      assert (g + [p])[..|g|] == g && g + [] == g;
    }
  }

  lemma {:induction false} SameSizes(files: Files, files': Files, g: seq<string>)
    requires forall p | p in g :: SizeIn(files, p) == SizeIn(files', p)
    ensures SizeOf(files, g) == SizeOf(files', g)
    decreases |g|
  {
    if g != [] { SameSizes(files, files', g[..|g| - 1]); }
  }

  /** Entry n is still whole when the entries before it are gone. */
  lemma StillThere(files: Files, files': Files, paths: seq<string>, keyOf: string -> string, c: seq<Entry>, n: nat)
    requires n < |c| && Ordered(c) && (forall e | e in c :: IsGroup(files, paths, keyOf, e))
    requires Left(files, files', c, n)
    ensures SizeOf(files', c[n].paths) == c[n].size
  {
    assert c[n] in c;
    forall p | p in c[n].paths ensures SizeIn(files, p) == SizeIn(files', p) {
      forall i | 0 <= i < n ensures p !in c[i].paths { GroupsApart(files, paths, keyOf, c, i, n, p); }
    }
    SameSizes(files, files', c[n].paths);
  }

  /** Different entries have no path in common. */
  lemma GroupsApart(files: Files, paths: seq<string>, keyOf: string -> string, c: seq<Entry>, i: nat, n: nat, p: string)
    requires i < n < |c| && Ordered(c) && (forall e | e in c :: IsGroup(files, paths, keyOf, e))
    requires p in c[n].paths
    ensures p !in c[i].paths
  {
    assert c[i] in c && c[n] in c;
    GroupHas(paths, keyOf, keyOf(c[i].paths[0]));
    GroupHas(paths, keyOf, keyOf(c[n].paths[0]));
    LessTotal(c[i], c[i]);
  }

  class CacheDir {
    var files: Files

    /** cache_ent_info::unlink. */
    method Unlink(paths: seq<string>)
      modifies this
      ensures forall p :: (p in files <==> p in old(files) && p !in paths) && (p in files ==> files[p] == old(files)[p])
    {
      for i := 0 to |paths|
        invariant forall p ::
          (p in files <==> p in old(files) && p !in paths[..i]) && (p in files ==> files[p] == old(files)[p])
      {
        assert paths[..i + 1] == paths[..i] + [paths[i]];
        files := files - {paths[i]};
      }
      assert paths[..|paths|] == paths;
    }

    /** The removal loop: the shortest oldest-first prefix that brings the cache
        below the limit goes, or everything; the running size is always that of
        the files left. */
    method Evict(c: seq<Entry>, size: nat, limit: nat, ghost paths: seq<string>, ghost keyOf: string -> string)
      returns (n: nat, r: nat)
      requires Ordered(c) && (forall e | e in c :: IsGroup(files, paths, keyOf, e))
      requires size == Total(c) == SizeOf(files, paths)
      modifies this
      ensures n <= |c| && Left(old(files), files, c, n) && r == Total(c[n..]) == SizeOf(files, paths)
      ensures (n == |c| || r < limit) && forall k | 0 <= k < n :: Total(c[k..]) >= limit
    {
      n, r := 0, size;
      assert c[0..] == c;
      while n < |c|
        invariant n <= |c| && Left(old(files), files, c, n) && r == Total(c[n..]) == SizeOf(files, paths)
        invariant forall k | 0 <= k < n :: Total(c[k..]) >= limit
      {
        if r < limit { break; }
        RemoveNext(n, c, paths, keyOf, old(files));
        assert c[n..][1..] == c[n + 1..];
        r := r - c[n].size;
        n := n + 1;
      }
    }

    method RemoveNext(n: nat, c: seq<Entry>, ghost paths: seq<string>, ghost keyOf: string -> string,
                      ghost files0: Files)
      requires n < |c| && Ordered(c) && (forall e | e in c :: IsGroup(files0, paths, keyOf, e))
      requires Left(files0, files, c, n)
      modifies this
      ensures Left(files0, files, c, n + 1) && SizeOf(files, paths) + c[n].size == old(SizeOf(files, paths))
    {
      assert c[n] in c;
      ghost var before, k := files, keyOf(c[n].paths[0]);
      StillThere(files0, files, paths, keyOf, c, n);
      Unlink(c[n].paths);
      GroupHas(paths, keyOf, k);
      SizeWithout(before, files, paths, keyOf, k);
    }

    /** clean_cache from the list of files on. */
    method Clean(paths: seq<string>, keyOf: string -> string, limit: nat) returns (c: seq<Entry>, n: nat, r: nat)
      modifies this
      ensures Ordered(c) && (forall e | e in c :: IsGroup(old(files), paths, keyOf, e))
      ensures forall p | p in paths :: exists e | e in c :: p in e.paths
      ensures n <= |c| && Left(old(files), files, c, n) && r == Total(c[n..]) == SizeOf(files, paths)
      ensures (n == |c| || r < limit) && forall k | 0 <= k < n :: Total(c[k..]) >= limit
    {
      var groups, keys := GroupFiles(paths, keyOf);
      var size;
      c, size := BuildContents(files, groups, keys, paths, keyOf);
      forall p | p in paths ensures exists e | e in c :: p in e.paths {
        GroupHas(paths, keyOf, keyOf(p));
        assert Holds(files, paths, keyOf, c, keyOf(p));
      }
      n, r := Evict(c, size, limit, paths, keyOf);
    }
  }
}
