/** The path and URL predicates of rgit/tools.py: `is_path_in`,
    `path_relative_to_or_unchanged` and `url_starts_with`. Paths are
    compared through `PurePosixPath(...).parts`; a URL arrives already split
    into its five `urlsplit` parts, since the URL parser is not part of this
    model. */
module Paths {
  import opened Wrappers
  import opened PyStr

  /** `child.parts[:len(parent.parts)] == parent.parts`: a Python slice past
      the end is the whole sequence. */
  predicate IsPathIn(parent: string, child: string) {
    var p := PosixParts(parent);
    var c := PosixParts(child);
    (if |p| <= |c| then c[..|p|] else c) == p
  }

  /** `is_path_in` is the prefix order on path components, and so is
      reflexive and transitive. */
  lemma IsPathInOrder(a: string, b: string, c: string)
    ensures IsPathIn(a, b) <==> PosixParts(a) <= PosixParts(b)
    ensures IsPathIn(a, a)
    ensures IsPathIn(a, b) && IsPathIn(b, c) ==> IsPathIn(a, c)
  {
    var pa, pb, pc := PosixParts(a), PosixParts(b), PosixParts(c);
    assert pa[..|pa|] == pa;
    if IsPathIn(a, b) && IsPathIn(b, c) {
      assert pa <= pb && pb <= pc;
      assert pc[..|pa|] == pb[..|pa|];
    }
  }

  /** What `path_relative_to_or_unchanged` gives back: the target's
      components below the root, or the target itself. */
  datatype Relocated = Relative(parts: seq<string>) | Unchanged

  /** `Path(target).relative_to(root)`, with the `ValueError` it raises
      turned into `Unchanged`. An empty root (`""` or `"."`) takes every
      relative target and no absolute one. */
  function PathRelativeToOrUnchanged(root: string, target: string): (r: Relocated)
    ensures r.Relative? ==> PosixParts(root) + r.parts == PosixParts(target)
    ensures r.Unchanged? <==>
              !(PosixParts(root) <= PosixParts(target)) || (PosixParts(root) == [] && IsAbsolute(target))
  {
    var rp := PosixParts(root);
    var tp := PosixParts(target);
    if rp == [] && IsAbsolute(target) then Unchanged
    else if rp <= tp then
      assert rp + tp[|rp|..] == tp;
      Relative(tp[|rp|..])
    else Unchanged
  }

  /** A target joined under a relative root comes back relative to it. */
  lemma RelativeRoundTrip(root: string, name: string)
    requires root != [] && !IsAbsolute(root) && root[|root| - 1] != '/'
    requires name != [] && name != "." && '/' !in name
    ensures PathRelativeToOrUnchanged(root, root + "/" + name) == Relative([name])
  {
    ChildParts(root, name);
  }

  /** The five parts `urllib.parse.urlsplit` returns. */
  datatype UrlParts = UrlParts(scheme: string, netloc: string, path: string, query: string, fragment: string)

  /** A URL with nothing beyond its scheme. */
  predicate SchemeOnly(u: UrlParts) {
    u.netloc == "" && u.path == "" && u.query == "" && u.fragment == ""
  }

  /** The path test of `url_starts_with`: same absoluteness, and the prefix's
      components lead the URL's. */
  predicate PathStartsWith(path: string, prefix: string) {
    var up := PosixParts(path);
    var pp := PosixParts(prefix);
    IsAbsolute(prefix) == IsAbsolute(path) && |pp| <= |up| && pp == up[..|pp|]
  }

  /** `url_starts_with(url, prefix)` over split URLs. */
  function UrlStartsWith(url: UrlParts, prefix: UrlParts): (r: bool)
    ensures prefix.scheme != url.scheme ==> !r
    ensures prefix.scheme == url.scheme && prefix.netloc != url.netloc ==> (r <==> SchemeOnly(prefix))
    ensures r && prefix.query != "" ==> prefix.query == url.query
    ensures r && prefix.fragment != "" ==> prefix.fragment == url.fragment
    ensures prefix.scheme == url.scheme && prefix.netloc == url.netloc ==>
              (r <==> ((prefix.path != "" || url.path != "") ==>
                         IsAbsolute(prefix.path) == IsAbsolute(url.path)
                         && PosixParts(prefix.path) <= PosixParts(url.path))
                      && (prefix.query != "" ==> prefix.query == url.query)
                      && (prefix.fragment != "" ==> prefix.fragment == url.fragment))
  {
    if prefix.scheme != url.scheme then false
    else if prefix.netloc != url.netloc then
      prefix.netloc == "" && prefix.path == "" && prefix.query == "" && prefix.fragment == ""
    else if (prefix.path != "" || url.path != "") && !PathStartsWith(url.path, prefix.path) then false
    else if prefix.query != "" && prefix.query != url.query then false
    else if prefix.fragment != "" && prefix.fragment != url.fragment then false
    else true
  }

  /** Every URL starts with itself. */
  lemma UrlStartsWithReflexive(u: UrlParts)
    ensures UrlStartsWith(u, u)
  {
    var parts := PosixParts(u.path);
    assert parts[..|parts|] == parts;
  }

  lemma {:induction false} SplitAround(a: string, c: char, b: string)
    requires c !in b
    ensures Split(a + [c] + b, c) == Split(a, c) + [b]
    decreases |a|
  {
    var s := a + [c] + b;
    if c in a {
      var i := IndexOf(a, c);
      IndexOfExtended(a, c, [c] + b);
      assert s == a + ([c] + b);
      var rest := a[i + 1..];
      assert s[..i] == a[..i] && s[i + 1..] == rest + [c] + b;
      SplitAround(rest, c, b);
      SplitHead(a[..i], Split(rest, c), b);
    } else {
      PartitionAt(a, c, b);
      IndexOfAt(a, c, b);
      assert s[..|a|] == a && s[|a| + 1..] == b;
    }
  }

  lemma SplitHead(head: string, pieces: seq<string>, b: string)
    ensures [head] + (pieces + [b]) == [head] + pieces + [b]
  {
  }

  lemma {:induction false} NamesAppend(pieces: seq<string>, name: string)
    requires name != "" && name != "."
    ensures Names(pieces + [name]) == Names(pieces) + [name]
  {
    if pieces != [] {
      assert (pieces + [name])[1..] == pieces[1..] + [name];
      NamesAppend(pieces[1..], name);
    } else {
      assert Names([name]) == [name] + Names([]);
    }
  }

  lemma {:induction false} LeadingSlashesAppend(p: string, tail: string)
    requires LeadingSlashes(p) < |p|
    ensures LeadingSlashes(p + tail) == LeadingSlashes(p)
  {
    if p[0] == '/' {
      assert (p + tail)[1..] == p[1..] + tail;
      LeadingSlashesAppend(p[1..], tail);
    }
  }

  lemma SlashTail(p: string, name: string, k: nat)
    requires k <= |p|
    ensures p + "/" + name == p + ("/" + name)
    ensures (p + "/" + name)[k..] == p[k..] + ['/'] + name
  {
  }

  lemma PartsOf(s: string, k: nat, pieces: seq<string>)
    requires LeadingSlashes(s) == k && Split(s[k..], '/') == pieces
    ensures PosixParts(s) == RootPart(k) + Names(pieces)
  {
  }

  lemma ChildSplit(p: string, name: string)
    requires LeadingSlashes(p) < |p|
    requires '/' !in name
    ensures LeadingSlashes(p + "/" + name) == LeadingSlashes(p)
    ensures Split((p + "/" + name)[LeadingSlashes(p)..], '/') == Split(p[LeadingSlashes(p)..], '/') + [name]
  {
    var k := LeadingSlashes(p);
    SlashTail(p, name, k);
    LeadingSlashesAppend(p, "/" + name);
    SplitAround(p[k..], '/', name);
  }

  lemma ChildComponents(p: string, name: string)
    requires LeadingSlashes(p) < |p|
    requires name != [] && name != "." && '/' !in name
    ensures PosixParts(p + "/" + name) == PosixParts(p) + [name]
  {
    var k := LeadingSlashes(p);
    var pieces := Split(p[k..], '/');
    ChildSplit(p, name);
    PartsOf(p + "/" + name, k, pieces + [name]);
    PartsOf(p, k, pieces);
    NamesAppend(pieces, name);
    AppendAssoc(RootPart(k), Names(pieces), name);
  }

  lemma AppendAssoc(a: seq<string>, b: seq<string>, x: string)
    ensures a + (b + [x]) == (a + b) + [x]
  {
  }

  /** Appending `/name` to a path that names something adds one component
      and keeps the path absolute or relative. */
  lemma ChildParts(p: string, name: string)
    requires LeadingSlashes(p) < |p|
    requires name != [] && name != "." && '/' !in name
    ensures PosixParts(p + "/" + name) == PosixParts(p) + [name]
    ensures IsAbsolute(p + "/" + name) == IsAbsolute(p)
  {
    ChildComponents(p, name);
    var s := p + "/" + name;
    assert s[0] == p[0];
  }

  /** A destination prefix such as `https://host/owner` covers the URL of
      every repository directly under it. */
  lemma ChildUrl(prefix: UrlParts, name: string)
    requires prefix.query == "" && prefix.fragment == ""
    requires LeadingSlashes(prefix.path) < |prefix.path|
    requires name != [] && name != "." && '/' !in name
    ensures UrlStartsWith(prefix.(path := prefix.path + "/" + name), prefix)
  {
    ChildParts(prefix.path, name);
    var pp := PosixParts(prefix.path);
    assert (pp + [name])[..|pp|] == pp;
  }

  /** A prefix without a path does not cover an absolute path on its own
      host: only a prefix written with a trailing slash does. */
  lemma HostOnlyPrefix()
    ensures !UrlStartsWith(UrlParts("https", "h", "/r", "", ""), UrlParts("https", "h", "", "", ""))
    ensures UrlStartsWith(UrlParts("https", "h", "/r", "", ""), UrlParts("https", "h", "/", "", ""))
  {
    assert "/r"[0] == '/';
    assert LeadingSlashes("/r") == 1 by {
      assert "/r"[1..] == "r";
    }
    assert "/r"[1..] == "r";
    assert LeadingSlashes("/") == 1 by {
      assert "/"[1..] == "";
    }
    assert "/"[1..] == "";
    assert Split("", '/') == [""];
    assert Split("r", '/') == ["r"];
    assert Names([""]) == [];
    assert Names(["r"]) == ["r"];
    assert PosixParts("/") == ["/"];
    assert PosixParts("/r") == ["/", "r"];
  }
}
