/**
 Choosing the handler of a request, libs/http-bridge/http_fcgi_svr.cpp: handlers are registered
 in a path trie, looked up exactly first and by directory second. The theorems speak of the
 whole registration history.
 */
module HttpDispatch {
  import opened Wrappers
  import opened DirectoryTree

  // ---- A trie and the calls that built it ----

  /** One call of `set_node`. */
  datatype Call<D> = Call(path: Path, data: Option<D>)

  /** The contents of a new trie after the given calls; calls off the root change nothing. */
  function After<D>(h: seq<Call<D>>): Contents<D> {
    if h == [] then map[ROOT := None]
    else
      var m, call := After(h[..|h| - 1]), h[|h| - 1];
      if Rooted(call.path) then SetContents(m, call.path, call.data) else m
  }

  lemma AfterCall<D>(h: seq<Call<D>>, call: Call<D>)
    ensures After(h + [call])
            == if Rooted(call.path) then SetContents(After(h), call.path, call.data) else After(h)
  {
    assert (h + [call])[..|h|] == h;
  }

  ghost predicate IsPrefix(p: Path, q: Path) {
    p != [] && p <= q
  }

  /** The root, or a prefix of some registered path. */
  ghost predicate IsPosition<D>(h: seq<Call<D>>, p: Path) {
    p == ROOT || exists i :: 0 <= i < |h| && Rooted(h[i].path) && IsPrefix(p, h[i].path)
  }

  /** The data of the latest call for exactly this path. */
  function LastData<D>(h: seq<Call<D>>, p: Path): Option<D> {
    if h == [] then None
    else if h[|h| - 1].path == p then h[|h| - 1].data
    else LastData(h[..|h| - 1], p)
  }

  lemma {:induction false} PrefixPositions<D>(m: Contents<D>, q: Path, n: nat, p: Path)
    requires n <= |q|
    ensures p in WithPrefixes(m, q, n) <==> p in m || (IsPrefix(p, q) && |p| <= n)
    ensures p in WithPrefixes(m, q, n) ==> WithPrefixes(m, q, n)[p] == if p in m then m[p] else None
  {
    if n > 0 {
      PrefixPositions(m, q, n - 1, p);
      assert IsPrefix(p, q) && |p| == n <==> p == q[..n];
    }
  }

  lemma SnocPosition<D>(h: seq<Call<D>>, p: Path)
    requires h != []
    ensures IsPosition(h, p)
            <==> IsPosition(h[..|h| - 1], p) || (Rooted(h[|h| - 1].path) && IsPrefix(p, h[|h| - 1].path))
  {
    var h' := h[..|h| - 1];
    if IsPosition(h, p) && p != ROOT {
      var i :| 0 <= i < |h| && Rooted(h[i].path) && IsPrefix(p, h[i].path);
      assert i < |h'| ==> h'[i] == h[i];
    }
    if IsPosition(h', p) && p != ROOT {
      var i :| 0 <= i < |h'| && Rooted(h'[i].path) && IsPrefix(p, h'[i].path);
      assert h[i] == h'[i];
    }
  }

  /**
   The trie is a flat map of its history: its positions are exactly the root and the prefixes of
   registered paths, and each holds the data last registered there, or none.
   */
  lemma {:induction false} TrieIsHistory<D>(h: seq<Call<D>>, p: Path)
    requires Rooted(p)
    ensures p in After(h) <==> IsPosition(h, p)
    ensures p in After(h) ==> After(h)[p] == LastData(h, p)
    ensures p !in After(h) ==> LastData(h, p) == None
  {
    if h != [] {
      var h', call := h[..|h| - 1], h[|h| - 1];
      TrieIsHistory(h', p);
      SnocPosition(h, p);
      PrefixPositions(After(h'), call.path, |call.path|, p);
    }
  }

  /**
   In a trie built by any history, an exact search finds a node for a path exactly when the path is
   the root or a prefix of a registered one, and that node holds the data last registered there.
   */
  lemma ExactByHistory<D>(t: Tree<D>, h: seq<Call<D>>, q: Path)
    requires t.Valid() && t.View() == After(h) && Rooted(q)
    ensures FindPath(t.nodes.Keys, q, Exact) == Returned(if IsPosition(h, q) then Some(q) else None)
    ensures q in t.nodes <==> IsPosition(h, q)
    ensures q in t.nodes ==> t.nodes[q].data == LastData(h, q)
  {
    TrieIsHistory(h, q);
    assert t.View().Keys == t.nodes.Keys;
    assert q[..|q|] == q;
  }

  // ---- The server ----

  /** The payload `http_fcgi_svr_cb`, whose callback pointer may be null. */
  datatype Holder<Cb> = Holder(cb: Option<Cb>)

  /** The callback stored at a position. */
  function CallbackAt<Cb>(m: Contents<Holder<Cb>>, p: Path): Option<Cb> {
    if p in m && m[p].Some? then m[p].value.cb else None
  }

  /** `get_cb_for_doc_uri` on a trie with the given contents. */
  function Dispatch<Cb>(m: Contents<Holder<Cb>>, q: Path): Outcome<Option<Cb>> {
    match FindPath(m.Keys, q, Exact)
    case DomainError => DomainError
    case Returned(Some(p)) => Returned(CallbackAt(m, p))
    case Returned(None) =>
      match FindPath(m.Keys, q, ParentPath)
      case DomainError => DomainError
      case Returned(Some(p)) => Returned(CallbackAt(m, p))
      case Returned(None) => Returned(None)
  }

  /** The callback last registered for exactly this path. */
  function LastCallback<Cb>(h: seq<Call<Holder<Cb>>>, p: Path): Option<Cb> {
    var data := LastData(h, p);
    if data.Some? then data.value.cb else None
  }

  /** What dispatch should do, told by the history alone. */
  ghost predicate Handles<Cb(!new)>(h: seq<Call<Holder<Cb>>>, q: Path, r: Outcome<Option<Cb>>) {
    if !IsAbsolute(q) then r == DomainError
    else if !Rooted(q) then r == Returned(None)
    else if IsPosition(h, q) then r == Returned(LastCallback(h, q))
    else exists k :: 1 <= k < |q| && LongestPosition(h, q, k)
                  && r == Returned(LastCallback(h, q[..k] + ["."]))
  }

  /** q[..k] is the longest prefix of q in the trie. */
  ghost predicate LongestPosition<D>(h: seq<Call<D>>, q: Path, k: nat)
    requires k <= |q|
  {
    && IsPosition(h, q[..k])
    && (forall j :: k < j <= |q| ==> !IsPosition(h, q[..j]))
  }

  class HttpFcgiServer<Cb(!new)> {
    var table: Tree<Holder<Cb>>
    ghost var history: seq<Call<Holder<Cb>>>

    ghost predicate Valid()
      reads this, table, table.nodes.Values
    {
      table.Valid() && table.View() == After(history)
    }

    constructor ()
      ensures Valid() && history == []
    {
      table := new Tree();
      history := [];
    }

    /** Once the trie has changed, the history catches up. */
    ghost method Record(call: Call<Holder<Cb>>)
      requires table.Valid() && table.View() == After(history + [call])
      modifies this`history
      ensures Valid() && history == old(history) + [call]
    {
      history := history + [call];
    }

    method RegisterCbForDocUri(uri: Path, cb: Option<Cb>) returns (r: Outcome<()>)
      requires Valid()
      modifies this`history, table, table.repr
      ensures Valid() && table == old(table)
      ensures history == old(history) + [Call(uri, Some(Holder(cb)))]
      ensures r == if IsAbsolute(uri) then Returned(()) else DomainError
    {
      ghost var call := Call(uri, Some(Holder(cb)));
      AfterCall(history, call);
      var node := table.SetNode(uri, Some(Holder(cb)));
      Record(call);
      r := if node.Returned? then Returned(()) else DomainError;
    }

    method GetCbForDocUri(uri: Path) returns (r: Outcome<Option<Cb>>)
      requires Valid()
      ensures r == Dispatch(After(history), uri)
      ensures Handles(history, uri, r)
    {
      DispatchByHistory(history, uri);
      assert table.nodes.Keys == After(history).Keys;
      var found := table.FindMatch(uri, Exact);
      if found == Returned(null) {
        found := table.FindMatch(uri, ParentPath);
      }
      if found.DomainError? {
        return DomainError;
      }
      var node := found.value;
      var cb := None;
      if node != null && node.data.Some? {
        cb := node.data.value.cb;
      }
      r := Returned(cb);
    }
  }

  // ---- Dispatch over every history ----

  lemma DeepestIsLongest<D>(h: seq<Call<D>>, q: Path, k: nat)
    requires Rooted(q) && k == Deepest(After(h).Keys, q, |q|)
    ensures k >= 1 && LongestPosition(h, q, k)
  {
    assert q[..1] == ROOT;
    TrieIsHistory(h, q[..1]);
    assert k >= 1;
    TrieIsHistory(h, q[..k]);
    forall j | k < j <= |q|
      ensures !IsPosition(h, q[..j])
    {
      TrieIsHistory(h, q[..j]);
    }
  }

  lemma StoredIsLast<Cb>(h: seq<Call<Holder<Cb>>>, p: Path)
    requires Rooted(p)
    ensures CallbackAt(After(h), p) == LastCallback(h, p)
  {
    TrieIsHistory(h, p);
  }

  /**
   For every history and every URI: the callback last registered for the URI if the URI is in
   the trie (none if it is only a step on the way), otherwise the one last registered for the
   directory of its longest prefix in the trie, otherwise none.
   */
  lemma DispatchByHistory<Cb(!new)>(h: seq<Call<Holder<Cb>>>, q: Path)
    ensures Handles(h, q, Dispatch(After(h), q))
  {
    if IsAbsolute(q) && Rooted(q) {
      var k := Deepest(After(h).Keys, q, |q|);
      DeepestIsLongest(h, q, k);
      TrieIsHistory(h, q);
      assert q[..|q|] == q;
      if k == |q| {
        StoredIsLast(h, q);
      } else {
        StoredIsLast(h, q[..k] + ["."]);
      }
    }
  }

  /** A registration that is still in force. */
  ghost predicate InForce<Cb>(h: seq<Call<Holder<Cb>>>, p: Path, cb: Cb) {
    exists i :: 0 <= i < |h| && h[i] == Call(p, Some(Holder(Some(cb))))
                && forall j :: i < j < |h| ==> h[j].path != p
  }

  lemma {:induction false} LastInForce<Cb>(h: seq<Call<Holder<Cb>>>, p: Path, cb: Cb)
    requires LastCallback(h, p) == Some(cb)
    ensures InForce(h, p, cb)
  {
    var h' := h[..|h| - 1];
    if h[|h| - 1].path == p {
      assert h[|h| - 1] == Call(p, Some(Holder(Some(cb))));
    } else {
      LastInForce(h', p, cb);
      var i :| 0 <= i < |h'| && h'[i] == Call(p, Some(Holder(Some(cb))))
               && forall j :: i < j < |h'| ==> h'[j].path != p;
      assert h[i] == h'[i];
      assert forall j :: i < j < |h'| ==> h[j] == h'[j];
    }
  }

  /** A dispatched callback was registered for the URI itself or for a directory containing it. */
  lemma DispatchSound<Cb(!new)>(h: seq<Call<Holder<Cb>>>, q: Path, cb: Cb)
    requires Dispatch(After(h), q) == Returned(Some(cb))
    ensures InForce(h, q, cb) || exists k :: 1 <= k < |q| && InForce(h, q[..k] + ["."], cb)
  {
    DispatchByHistory(h, q);
    if IsPosition(h, q) {
      LastInForce(h, q, cb);
    } else {
      var k :| 1 <= k < |q| && LongestPosition(h, q, k)
               && Returned(Some(cb)) == Returned(LastCallback(h, q[..k] + ["."]));
      LastInForce(h, q[..k] + ["."], cb);
    }
  }

  // ---- Directories further out are not consulted ----

  lemma PositionPrefix<D>(h: seq<Call<D>>, p: Path, q: Path)
    requires IsPosition(h, q) && Rooted(q) && IsPrefix(p, q)
    ensures IsPosition(h, p)
  {
    if q != ROOT {
      var i :| 0 <= i < |h| && Rooted(h[i].path) && IsPrefix(q, h[i].path);
      assert IsPrefix(p, h[i].path);
    }
  }

  /** The innermost directory around q that is in the trie. */
  ghost predicate InnermostDirectory<D>(h: seq<Call<D>>, q: Path, k: nat) {
    && 1 <= k < |q| && IsPosition(h, q[..k] + ["."])
    && (forall j :: k < j < |q| ==> !IsPosition(h, q[..j] + ["."]))
  }

  /**
   A URI outside the trie is served by its innermost registered directory exactly when the trie
   holds no longer part of the URI than that directory; otherwise nothing serves it.
   */
  lemma DirectoryLookup<D>(h: seq<Call<D>>, q: Path, k: nat)
    requires Rooted(q) && !IsPosition(h, q) && InnermostDirectory(h, q, k)
    ensures FindPath(After(h).Keys, q, ParentPath)
            == Returned(if IsPosition(h, q[..k + 1]) then None else Some(q[..k] + ["."]))
  {
    var d := Deepest(After(h).Keys, q, |q|);
    DeepestIsLongest(h, q, d);
    assert d < |q| by {
      assert q[..|q|] == q;
    }
    assert k <= d by {
      PositionPrefix(h, q[..k], q[..k] + ["."]);
    }
    TrieIsHistory(h, q[..d] + ["."]);
    if d > k {
      PositionPrefix(h, q[..k + 1], q[..d]);
    }
  }

  /** A handler for "/a/" stops serving "/a/b/x" once "/a/b/c" is registered. */
  lemma RegistrationShadows<Cb>(outer: Holder<Cb>, inner: Holder<Cb>)
    ensures var dir, q := ["/", "a", "."], ["/", "a", "b", "x"];
            var h := [Call(dir, Some(outer))];
            && FindPath(After(h).Keys, q, ParentPath) == Returned(Some(dir))
            && FindPath(After(h + [Call(["/", "a", "b", "c"], Some(inner))]).Keys, q, ParentPath) == Returned(None)
  {
    var dir, q, other := ["/", "a", "."], ["/", "a", "b", "x"], ["/", "a", "b", "c"];
    var h1 := [Call(dir, Some(outer))];
    var h2 := h1 + [Call(other, Some(inner))];
    assert q[..2] + ["."] == dir && q[..3] == ["/", "a", "b"] && (q[..3] + ["."])[3] == ".";
    assert h1[0].path == dir && IsPrefix(dir, dir);
    assert h2[0].path == dir && h2[1].path == other && IsPrefix(q[..3], other);
    assert !IsPrefix(q, dir) && !IsPrefix(q[..3], dir) && !IsPrefix(q[..3] + ["."], dir) by {
      assert q[2] == "b" && q[..3][2] == "b" && dir[2] == ".";
    }
    assert !IsPrefix(q, other) && !IsPrefix(q[..3] + ["."], other) by {
      assert q[3] == "x" && other[3] == "c";
    }
    DirectoryLookup(h1, q, 2);
    DirectoryLookup(h2, q, 2);
  }
}
