/**
 * The directory registry: a map from directory path to the watcher opened
 * for it. Registering a directory opens one watcher and starts one router
 * for it, at most once per path; recursive registration registers every
 * directory a walk visits, in walk order, and stops at the first error.
 */
module Registry {
  import opened Events

  /**
   * The outcome of registering directories: the error returned (if any),
   * the registry afterwards, and the directories a router was started for,
   * in the order they were started.
   */
  datatype Registration = Registration(err: Option<Error>, watchers: map<string, Handle>, launched: seq<string>)

  predicate Distinct(s: seq<string>)
  {
    forall i, j :: 0 <= i < j < |s| ==> s[i] != s[j]
  }

  /** The error that opening a watch with answers `o` meets, if any. */
  function OpenError(o: WatchOpen): Option<Error>
  {
    if o.create.Err? then Some(o.create.error) else o.add
  }

  /** AddDir on registry `w`: `o` is what the watch primitive answers if it is asked. */
  function Register(w: map<string, Handle>, dir: string, o: WatchOpen): (r: Registration)
    ensures dir in w ==> r == Registration(None, w, [])
    ensures dir !in w ==> r.err == OpenError(o)
    ensures r.err.None? <==> dir in r.watchers
    ensures r.err.Some? ==> r.watchers == w && r.launched == []
    ensures forall d :: d in w ==> d in r.watchers && r.watchers[d] == w[d]
    ensures forall d :: d in r.watchers ==> d in w || d == dir
    ensures r.launched == (if dir in w || r.err.Some? then [] else [dir])
    ensures r.launched != [] ==> o.create.Ok? && r.watchers[dir] == o.create.value
  {
    if dir in w then Registration(None, w, [])
    else if o.create.Err? then Registration(Some(o.create.error), w, [])
    else if o.add.Some? then Registration(o.add, w, [])
    else Registration(None, w[dir := o.create.value], [dir])
  }

  /** Registering a path twice leaves one watcher and one router for it. */
  lemma RegisterTwice(w: map<string, Handle>, dir: string, o1: WatchOpen, o2: WatchOpen)
    requires Register(w, dir, o1).err.None?
    ensures var r1 := Register(w, dir, o1);
            var r2 := Register(r1.watchers, dir, o2);
            r2 == Registration(None, r1.watchers, []) && |r1.launched| <= 1
  {
  }

  /** The directories a walk visits. */
  function DirPaths(items: seq<WalkItem>): set<string>
  {
    set i | 0 <= i < |items| && items[i].Visit? && items[i].isDir :: items[i].path
  }

  /** The directories of a walk are those of its first item and of the rest. */
  lemma DirPathsCons(items: seq<WalkItem>)
    requires items != []
    ensures DirPaths(items) ==
            (if items[0].Visit? && items[0].isDir then {items[0].path} else {}) + DirPaths(items[1..])
  {
  }

  /** `e` is the error that walk item `item` produces, with `o` the watch answers for it. */
  predicate FailsWith(item: WalkItem, o: WatchOpen, e: Error)
  {
    || (item.WalkErr? && item.error == e)
    || (item.Visit? && item.isDir && OpenError(o) == Some(e))
  }

  /**
   * AddDirRecursive on registry `w`: the walk calls back for `items` in
   * order, and `opens[i]` is what the watch primitive answers if item i is
   * registered. Files are skipped; the first error ends the walk.
   */
  function Walk(w: map<string, Handle>, items: seq<WalkItem>, opens: seq<WatchOpen>): Registration
    requires |opens| >= |items|
    decreases |items|
  {
    if items == [] then Registration(None, w, [])
    else
      match items[0]
      case WalkErr(_, e) => Registration(Some(e), w, [])
      case Visit(path, isDir) =>
        if !isDir then Walk(w, items[1..], opens[1..])
        else
          var a := Register(w, path, opens[0]);
          if a.err.Some? then a
          else
            var rest := Walk(a.watchers, items[1..], opens[1..]);
            Registration(rest.err, rest.watchers, a.launched + rest.launched)
  }

  /**
   * What a recursive registration promises: entries already present are
   * untouched; the registry gains exactly the directories a router was
   * started for, each once, none of them registered before and all of them
   * directories of the walk (files are skipped); without an error every
   * directory of the walk is registered; an error returned is the one some
   * item of the walk produced.
   */
  lemma {:induction false} WalkFacts(w: map<string, Handle>, items: seq<WalkItem>, opens: seq<WatchOpen>)
    requires |opens| >= |items|
    ensures var r := Walk(w, items, opens);
            && (forall d :: d in w ==> d in r.watchers && r.watchers[d] == w[d])
            && (forall d :: d in r.watchers <==> d in w || d in r.launched)
            && (forall d :: d in r.launched ==> d !in w && d in DirPaths(items))
            && Distinct(r.launched)
            && (r.err.None? ==> DirPaths(items) <= r.watchers.Keys)
            && (r.err.Some? ==> exists i :: 0 <= i < |items| && FailsWith(items[i], opens[i], r.err.value))
    decreases |items|
  {
    if items != [] {
      DirPathsCons(items);
      match items[0]
      case WalkErr(_, e) =>
        assert FailsWith(items[0], opens[0], e);
      case Visit(path, isDir) =>
        var w' := if isDir then Register(w, path, opens[0]).watchers else w;
        if !isDir || Register(w, path, opens[0]).err.None? {
          var rest := Walk(w', items[1..], opens[1..]);
          WalkFacts(w', items[1..], opens[1..]);
          if rest.err.Some? {
            var i :| 0 <= i < |items[1..]| && FailsWith(items[1..][i], opens[1..][i], rest.err.value);
            assert FailsWith(items[i + 1], opens[i + 1], rest.err.value);
          }
        } else {
          assert FailsWith(items[0], opens[0], Register(w, path, opens[0]).err.value);
        }
    }
  }

  /**
   * Walking `a` then `b` is walking `a` and, unless that failed, walking `b`
   * from the registry `a` left: an error ends the walk with everything
   * registered before it kept, and nothing after it visited.
   */
  lemma {:induction false} WalkAppend(w: map<string, Handle>, a: seq<WalkItem>, b: seq<WalkItem>,
                                      oa: seq<WatchOpen>, ob: seq<WatchOpen>)
    requires |oa| == |a| && |ob| >= |b|
    ensures var ra := Walk(w, a, oa);
            Walk(w, a + b, oa + ob) ==
              if ra.err.Some? then ra
              else
                var rb := Walk(ra.watchers, b, ob);
                Registration(rb.err, rb.watchers, ra.launched + rb.launched)
    decreases |a|
  {
    if a == [] {
      assert a + b == b && oa + ob == ob;
    } else {
      var ab, oab := a + b, oa + ob;
      assert ab[0] == a[0] && oab[0] == oa[0];
      assert ab[1..] == a[1..] + b && oab[1..] == oa[1..] + ob;
      match a[0]
      case WalkErr(_, e) =>
        assert Walk(w, ab, oab) == Registration(Some(e), w, []);
      case Visit(path, isDir) =>
        if !isDir {
          assert Walk(w, ab, oab) == Walk(w, a[1..] + b, oa[1..] + ob);
          assert Walk(w, a, oa) == Walk(w, a[1..], oa[1..]);
          WalkAppend(w, a[1..], b, oa[1..], ob);
        } else {
          var r := Register(w, path, oa[0]);
          if r.err.None? {
            var rest := Walk(r.watchers, a[1..] + b, oa[1..] + ob);
            assert Walk(w, ab, oab) == Registration(rest.err, rest.watchers, r.launched + rest.launched);
            var ra := Walk(r.watchers, a[1..], oa[1..]);
            assert Walk(w, a, oa) == Registration(ra.err, ra.watchers, r.launched + ra.launched);
            WalkAppend(r.watchers, a[1..], b, oa[1..], ob);
            if ra.err.None? {
              var rb := Walk(ra.watchers, b, ob);
              assert rest == Registration(rb.err, rb.watchers, ra.launched + rb.launched);
              assert r.launched + (ra.launched + rb.launched) == (r.launched + ra.launched) + rb.launched;
            }
          } else {
            assert Walk(w, ab, oab) == r;
            assert Walk(w, a, oa) == r;
          }
        }
    }
  }

  /**
   * When item `k` is the first to fail, the whole walk ends as the walk of
   * the items up to and including `k` does, and what was registered before
   * `k` stays registered.
   */
  lemma WalkStopsAtFirstError(w: map<string, Handle>, items: seq<WalkItem>, opens: seq<WatchOpen>, k: nat)
    requires |opens| == |items| && k < |items|
    requires Walk(w, items[..k], opens[..k]).err.None?
    requires Walk(w, items[..k + 1], opens[..k + 1]).err.Some?
    ensures Walk(w, items, opens) == Walk(w, items[..k + 1], opens[..k + 1])
    ensures Walk(w, items[..k], opens[..k]).watchers.Keys <= Walk(w, items, opens).watchers.Keys
  {
    assert items == items[..k + 1] + items[k + 1..] && opens == opens[..k + 1] + opens[k + 1..];
    WalkAppend(w, items[..k + 1], items[k + 1..], opens[..k + 1], opens[k + 1..]);
    assert items[..k + 1] == items[..k] + [items[k]] && opens[..k + 1] == opens[..k] + [opens[k]];
    WalkAppend(w, items[..k], [items[k]], opens[..k], [opens[k]]);
  }

  /**
   * A walk without errors over `d` distinct directories that were not
   * registered yet registers exactly `d` new watches and starts one router
   * for each.
   */
  lemma WalkCount(w: map<string, Handle>, items: seq<WalkItem>, opens: seq<WatchOpen>)
    requires |opens| >= |items|
    requires Walk(w, items, opens).err.None?
    requires DirPaths(items) !! w.Keys
    ensures |Walk(w, items, opens).watchers| == |w| + |DirPaths(items)|
    ensures |Walk(w, items, opens).launched| == |DirPaths(items)|
  {
    var r := Walk(w, items, opens);
    WalkFacts(w, items, opens);
    assert r.watchers.Keys == w.Keys + DirPaths(items);
    assert |r.watchers.Keys| == |w.Keys| + |DirPaths(items)|;
    DistinctCard(r.launched, DirPaths(items));
  }

  /** A sequence without repeats that lists exactly the elements of `s` is as long as `s` is big. */
  lemma {:induction false} DistinctCard(l: seq<string>, s: set<string>)
    requires Distinct(l)
    requires forall x :: x in l <==> x in s
    ensures |l| == |s|
    decreases |l|
  {
    if l == [] {
      assert s == {};
    } else {
      assert forall x :: x in l[1..] <==> x in s - {l[0]} by {
        forall x ensures x in l[1..] <==> x in s - {l[0]} {
          if x in l[1..] {
            var j :| 0 <= j < |l[1..]| && l[1..][j] == x;
            assert l[j + 1] == x;
          }
          if x in s - {l[0]} {
            var j :| 0 <= j < |l| && l[j] == x;
            assert j != 0 && l[1..][j - 1] == x;
          }
        }
      }
      DistinctCard(l[1..], s - {l[0]});
    }
  }
}
