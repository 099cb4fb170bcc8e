/**
 `_normalize_url` of crawler.py, for addresses with a host: `urlparse` takes the address apart, the fragment
 goes, and `geturl` puts it together again, without the mark of a query or of parameters that are
 empty; then the slashes at the end go. Addresses that `urlparse` refuses are not part of this model.
 */
module UrlNormal {
  import opened Wrappers

  // ---------------------------------------------------------------- finding places

  function FirstIndex(s: string, c: char): (i: nat)
    ensures i <= |s| && c !in s[..i] && (i < |s| ==> s[i] == c)
  {
    if s == "" then 0
    else if s[0] == c then 0
    else
      var i := FirstIndex(s[1..], c);
      assert s[..1 + i] == [s[0]] + s[1..][..i];
      1 + i
  }

  lemma FirstIndexIs(s: string, c: char, i: nat)
    requires i <= |s| && c !in s[..i] && (i < |s| ==> s[i] == c)
    ensures FirstIndex(s, c) == i
  {
    var j := FirstIndex(s, c);
    forall k | 0 <= k < i ensures s[k] != c {
      assert s[..i][k] != c;
    }
    forall k | 0 <= k < j ensures s[k] != c {
      assert s[..j][k] != c;
    }
  }

  predicate EndsHost(c: char) {
    c == '/' || c == '?' || c == '#'
  }

  function HostEnd(s: string): (i: nat)
    ensures i <= |s| && (forall k | 0 <= k < i :: !EndsHost(s[k])) && (i < |s| ==> EndsHost(s[i]))
  {
    if s == "" || EndsHost(s[0]) then 0 else 1 + HostEnd(s[1..])
  }

  lemma HostEndIs(host: string, rest: string)
    requires (forall k | 0 <= k < |host| :: !EndsHost(host[k])) && (rest == "" || EndsHost(rest[0]))
    ensures HostEnd(host + rest) == |host|
  {
    assert forall k | 0 <= k < |host| :: (host + rest)[k] == host[k];
    assert (host + rest)[|host|..] == rest;
  }

  // ---------------------------------------------------------------- what follows the host

  function DropFragment(s: string): string {
    s[..FirstIndex(s, '#')]
  }

  function PathOf(s: string): string {
    var b := DropFragment(s); b[..FirstIndex(b, '?')]
  }

  function QueryOf(s: string): string {
    var b := DropFragment(s);
    var q := FirstIndex(b, '?');
    if q < |b| then b[q + 1..] else ""
  }

  /** Where the last segment of the path begins. */
  function SegmentStart(p: string): (i: nat)
    ensures i <= |p|
  {
    if p == "" || p[|p| - 1] == '/' then |p| else SegmentStart(p[..|p| - 1])
  }

  /** The last segment has a mark of parameters, and nothing after it. */
  predicate EmptyParams(p: string) {
    p != "" && p[|p| - 1] == ';' && ';' !in p[..|p| - 1][SegmentStart(p[..|p| - 1])..]
  }

  function DropEmptyParams(p: string): string {
    if EmptyParams(p) then p[..|p| - 1] else p
  }

  function DropSlashes(s: string): string {
    if s != "" && s[|s| - 1] == '/' then DropSlashes(s[..|s| - 1]) else s
  }

  function Put(path: string, query: string): string {
    if query == "" then path else path + "?" + query
  }

  /** What follows the host, taken apart and put together again. */
  function Joined(rest: string): string {
    Put(DropEmptyParams(PathOf(rest)), QueryOf(rest))
  }

  function Tidy(rest: string): string {
    DropSlashes(Joined(rest))
  }

  /** What stands after `#` makes no difference. */
  lemma FragmentIsDropped(rest: string, fragment: string)
    requires '#' !in rest
    ensures Joined(rest + "#" + fragment) == Joined(rest) && Tidy(rest + "#" + fragment) == Tidy(rest)
  {
    var whole := rest + "#" + fragment;
    assert whole[..|rest|] == rest && rest[..|rest|] == rest;
    FirstIndexIs(whole, '#', |rest|);
    FirstIndexIs(rest, '#', |rest|);
    assert DropFragment(whole) == DropFragment(rest) == rest;
  }

  predicate AllSlashes(s: string) {
    forall k | 0 <= k < |s| :: s[k] == '/'
  }

  /**
   A query that is made of slashes alone; or no query, and before the slashes at the end of the path there is the mark
   of empty parameters.
   */
  predicate Unsteady(rest: string) {
    var query := QueryOf(rest);
    if query != "" then AllSlashes(query) else EmptyParams(DropSlashes(DropEmptyParams(PathOf(rest))))
  }

  lemma {:induction false} DropSlashesFacts(s: string)
    ensures var r := DropSlashes(s);
      && r <= s && (r == "" || r[|r| - 1] != '/') && forall k | |r| <= k < |s| :: s[k] == '/'
    decreases |s|
  {
    if s != "" && s[|s| - 1] == '/' {
      DropSlashesFacts(s[..|s| - 1]);
    }
  }

  lemma {:induction false} DropSlashesFrom(a: string, b: string)
    requires a != "" && a[|a| - 1] != '/'
    ensures DropSlashes(a + b) == a + DropSlashes(b)
    decreases |b|
  {
    if b == "" {
      assert a + b == a;
    } else {
      assert (a + b)[..|a + b| - 1] == a + b[..|b| - 1];
      if b[|b| - 1] == '/' {
        DropSlashesFrom(a, b[..|b| - 1]);
      }
    }
  }

  lemma {:induction false} DropAllSlashes(s: string)
    requires AllSlashes(s)
    ensures DropSlashes(s) == ""
    decreases |s|
  {
    if s != "" {
      DropAllSlashes(s[..|s| - 1]);
    }
  }

  lemma PrefixWithout(r: string, s: string, c: char)
    requires r <= s && c !in s
    ensures c !in r
  {
    forall i | 0 <= i < |r| ensures r[i] != c {
      assert s[i] != c;
    }
  }

  /** Dropping the mark leaves no other one. */
  lemma DroppedOnce(p: string)
    ensures DropEmptyParams(p) <= p && !EmptyParams(DropEmptyParams(p))
  {
    if EmptyParams(p) {
      var r := p[..|p| - 1];
      if r != "" && r[|r| - 1] == ';' {
        LastIsMark(r);
      }
    }
  }

  lemma LastIsMark(r: string)
    requires r != "" && r[|r| - 1] == ';'
    ensures ';' in r[SegmentStart(r)..]
  {
    var n := |r| - 1;
    assert SegmentStart(r) == SegmentStart(r[..n]) <= n;
    assert r[SegmentStart(r)..][n - SegmentStart(r)] == ';';
  }

  lemma RestParts(rest: string)
    ensures '?' !in PathOf(rest) && '#' !in PathOf(rest) && '#' !in QueryOf(rest)
  {
    var b := DropFragment(rest);
    var q := FirstIndex(b, '?');
    forall k | 0 <= k < |b| ensures b[k] != '#' {
      assert b[k] in b;
    }
  }

  /** Taking apart what was put together. */
  lemma PutParts(path: string, query: string)
    requires '?' !in path && '#' !in path && '#' !in query
    ensures PathOf(Put(path, query)) == path && QueryOf(Put(path, query)) == query
  {
    var s := Put(path, query);
    assert s[..|s|] == s && s[..|path|] == path;
    FirstIndexIs(s, '#', |s|);
    FirstIndexIs(s, '?', |path|);
  }

  lemma MarkParts(path: string)
    requires '?' !in path && '#' !in path
    ensures PathOf(path + "?") == path && QueryOf(path + "?") == ""
  {
    var s := path + "?";
    assert s[..|s|] == s && s[..|path|] == path;
    FirstIndexIs(s, '#', |s|);
    FirstIndexIs(s, '?', |path|);
  }

  /** What follows the host stays as it is, once normalised, if and only if it is not unsteady. */
  lemma TidyTwice(rest: string)
    ensures Tidy(Tidy(rest)) == Tidy(rest) <==> !Unsteady(rest)
  {
    var path, query := DropEmptyParams(PathOf(rest)), QueryOf(rest);
    RestParts(rest);
    DroppedOnce(PathOf(rest));
    PrefixWithout(path, PathOf(rest), '?');
    PrefixWithout(path, PathOf(rest), '#');
    if query == "" {
      PathTwice(path);
    } else {
      QueryTwice(path, query);
    }
  }

  lemma PathTwice(path: string)
    requires '?' !in path && '#' !in path
    ensures var r := DropSlashes(path); Tidy(r) == r <==> !EmptyParams(r)
  {
    var r := DropSlashes(path);
    DropSlashesFacts(path);
    PrefixWithout(r, path, '?');
    PrefixWithout(r, path, '#');
    PutParts(r, "");
    DropSlashesFacts(DropEmptyParams(r));
  }

  lemma QueryTwice(path: string, query: string)
    requires '?' !in path && '#' !in path && '#' !in query && query != "" && !EmptyParams(path)
    ensures var r := DropSlashes(Put(path, query)); Tidy(r) == r <==> !AllSlashes(query)
  {
    var head, kept := path + "?", DropSlashes(query);
    DropSlashesFrom(head, query);
    DropSlashesFacts(query);
    PrefixWithout(kept, query, '#');
    if AllSlashes(query) {
      DropAllSlashes(query);
      assert head + "" == head;
      MarkParts(path);
      DropSlashesFacts(path);
    } else {
      PutParts(path, kept);
      assert Tidy(head + kept) == DropSlashes(head + kept);
      DropSlashesFrom(head, kept);
    }
  }

  // ---------------------------------------------------------------- the whole address

  /** What `urlparse` does not see: characters up to the blank at the start, and some anywhere. */
  predicate Skipped(c: char) {
    c == '\t' || c == '\r' || c == '\n'
  }

  function WithoutSkipped(s: string): (r: string)
    ensures forall k | 0 <= k < |r| :: !Skipped(r[k])
  {
    if s == "" then "" else (if Skipped(s[0]) then "" else [s[0]]) + WithoutSkipped(s[1..])
  }

  function Clean(s: string): (r: string)
    ensures forall k | 0 <= k < |r| :: !Skipped(r[k])
  {
    if s != "" && s[0] <= ' ' then Clean(s[1..]) else WithoutSkipped(s)
  }

  function LowerChar(c: char): char {
    if 'A' <= c <= 'Z' then c + 32 as char else c
  }

  function Lower(s: string): (r: string)
    ensures |r| == |s| && forall k | 0 <= k < |s| :: r[k] == LowerChar(s[k])
  {
    if s == "" then "" else [LowerChar(s[0])] + Lower(s[1..])
  }

  datatype Address = Address(scheme: string, host: string, rest: string)

  function Split(s: string): Option<Address> {
    var c := Clean(s);
    var i := FirstIndex(c, ':');
    if Lower(c[..i]) !in {"http", "https"} || !("://" <= c[i..]) then None
    else
      var after := c[i + 3..];
      var j := HostEnd(after);
      if j == 0 then None else Some(Address(Lower(c[..i]), after[..j], after[j..]))
  }

  /** An address of the web that names a host: what `is_onion_url` asks first. */
  predicate IsWeb(s: string) {
    Split(s).Some?
  }

  function Text(a: Address, rest: string): string {
    a.scheme + "://" + a.host + rest
  }

  function NormalizeUrl(s: string): string
    requires IsWeb(s)
  {
    var a := Split(s).value; DropSlashes(Text(a, Joined(a.rest)))
  }

  /** The addresses that normalising changes twice. */
  predicate ChangesTwice(s: string) {
    IsWeb(s) && Unsteady(Split(s).value.rest)
  }

  predicate GoodAddress(a: Address) {
    && a.scheme in {"http", "https"}
    && a.host != "" && (forall k | 0 <= k < |a.host| :: !EndsHost(a.host[k]) && !Skipped(a.host[k]))
    && (a.rest == "" || EndsHost(a.rest[0])) && (forall k | 0 <= k < |a.rest| :: !Skipped(a.rest[k]))
  }

  lemma SplitIsGood(s: string)
    requires IsWeb(s)
    ensures GoodAddress(Split(s).value)
  {
  }

  lemma {:induction false} NothingSkipped(s: string)
    requires forall k | 0 <= k < |s| :: !Skipped(s[k])
    ensures WithoutSkipped(s) == s
    decreases |s|
  {
    if s != "" {
      NothingSkipped(s[1..]);
    }
  }

  lemma {:induction false} SchemeText(scheme: string, tail: string)
    requires scheme in {"http", "https"}
    ensures var s := scheme + "://" + tail;
      FirstIndex(s, ':') == |scheme| && s[..|scheme|] == scheme && Lower(scheme) == scheme
      && "://" <= s[|scheme|..] && s[|scheme| + 3..] == tail
  {
    var s, n := scheme + "://" + tail, |scheme|;
    assert s[..n] == scheme && s[n..] == "://" + tail;
    FirstIndexIs(s, ':', n);
  }

  lemma CleanText(a: Address, rest: string)
    requires GoodAddress(a.(rest := rest))
    ensures Clean(Text(a, rest)) == a.scheme + "://" + (a.host + rest)
  {
    var s := Text(a, rest);
    assert s == a.scheme + "://" + (a.host + rest);
    assert forall k | 0 <= k < |a.scheme| :: s[k] == a.scheme[k];
    NothingSkipped(s);
    assert s[0] == 'h';
  }

  /** An address is taken apart as it was put together. */
  lemma SplitText(a: Address, rest: string)
    requires GoodAddress(a.(rest := rest))
    ensures Split(Text(a, rest)) == Some(a.(rest := rest))
  {
    CleanText(a, rest);
    SchemeText(a.scheme, a.host + rest);
    HostEndIs(a.host, rest);
  }

  lemma NormalText(s: string)
    requires IsWeb(s)
    ensures var a := Split(s).value; NormalizeUrl(s) == Text(a, Tidy(a.rest))
  {
    var a := Split(s).value;
    SplitIsGood(s);
    var head := a.scheme + "://" + a.host;
    assert head[|head| - 1] == a.host[|a.host| - 1];
    DropSlashesFrom(head, Joined(a.rest));
  }

  lemma PathIsGood(rest: string)
    requires rest == "" || EndsHost(rest[0])
    ensures var p := DropEmptyParams(PathOf(rest));
      p <= rest && (p == "" ==> PathOf(rest) == "") && (p != "" ==> p[0] == '/')
  {
    var path := PathOf(rest);
    assert path <= rest && (path == "" || path[0] == '/');
  }

  lemma QueryIsGood(rest: string)
    ensures forall c | c in QueryOf(rest) :: c in rest
  {
    var b := DropFragment(rest);
    assert forall c | c in QueryOf(rest) :: c in b;
  }

  lemma JoinedIsGood(rest: string)
    requires rest == "" || EndsHost(rest[0])
    ensures Joined(rest) == "" || EndsHost(Joined(rest)[0])
    ensures forall c | c in Joined(rest) :: c in rest || c == '?'
  {
    PathIsGood(rest);
    QueryIsGood(rest);
  }

  lemma TidyIsGood(a: Address)
    requires GoodAddress(a)
    ensures GoodAddress(a.(rest := Tidy(a.rest)))
  {
    var joined, tidy := Joined(a.rest), Tidy(a.rest);
    JoinedIsGood(a.rest);
    DropSlashesFacts(joined);
    forall k | 0 <= k < |tidy| ensures !Skipped(tidy[k]) {
      assert tidy[k] == joined[k] && joined[k] in joined;
      if tidy[k] != '?' {
        var i :| 0 <= i < |a.rest| && a.rest[i] == tidy[k];
      }
    }
  }

  lemma TextDiffers(a: Address, x: string, y: string)
    ensures Text(a, x) == Text(a, y) <==> x == y
  {
    var n := |a.scheme + "://" + a.host|;
    assert Text(a, x)[n..] == x && Text(a, y)[n..] == y;
  }

  /** A path that normalising leaves as it is. */
  predicate PlainPath(path: string) {
    path != "" && path[0] == '/' && path[|path| - 1] != '/' && !EmptyParams(path)
    && forall k | 0 <= k < |path| :: !Skipped(path[k]) && path[k] != '?' && path[k] != '#'
  }

  lemma GoodText(a: Address, rest: string)
    requires GoodAddress(a.(rest := rest))
    ensures IsWeb(Text(a, rest)) && Split(Text(a, rest)).value.rest == rest
    ensures NormalizeUrl(Text(a, rest)) == Text(a, Tidy(rest)) && (ChangesTwice(Text(a, rest)) <==> Unsteady(rest))
  {
    SplitText(a, rest);
    NormalText(Text(a, rest));
  }

  lemma GoodTail(a: Address, path: string, mark: string)
    requires GoodAddress(a) && PlainPath(path) && forall k | 0 <= k < |mark| :: !Skipped(mark[k])
    ensures GoodAddress(a.(rest := path + mark))
  {
    var rest := path + mark;
    assert rest[0] == path[0];
    forall k | 0 <= k < |rest| ensures !Skipped(rest[k]) {
      assert rest[k] == if k < |path| then path[k] else mark[k - |path|];
    }
  }

  lemma SlashQueryTail(path: string)
    requires PlainPath(path)
    ensures Tidy(path + "?/") == path + "?" && Tidy(path + "?") == path && Unsteady(path + "?/")
  {
    var marked := path + "?";
    MarkParts(path);
    assert Put(path, "/") == path + "?/" == marked + "/";
    PutParts(path, "/");
    DropSlashesFrom(marked, "/");
    DropAllSlashes("/");
  }

  lemma EmptyParamsTail(path: string)
    requires PlainPath(path) && ';' !in path
    ensures Tidy(path + ";/") == path + ";" && Tidy(path + ";") == path && Unsteady(path + ";/")
  {
    var marked := path + ";";
    assert path + ";/" == marked + "/";
    OneMark(path);
    MarkedTail(path, marked);
    SlashTail(marked);
  }

  lemma MarkedTail(path: string, marked: string)
    requires PlainPath(path) && marked == path + ";" && DropEmptyParams(marked) == path
    ensures Tidy(marked) == path
  {
    PutParts(marked, "");
  }

  lemma SlashTail(marked: string)
    requires '?' !in marked && '#' !in marked && marked != "" && marked[|marked| - 1] != '/' && EmptyParams(marked)
    ensures Tidy(marked + "/") == marked && Unsteady(marked + "/")
  {
    PutParts(marked + "/", "");
    OneSlash(marked);
  }

  lemma OneMark(path: string)
    requires ';' !in path
    ensures DropEmptyParams(path + ";") == path && EmptyParams(path + ";")
  {
    var marked := path + ";";
    assert marked[..|marked| - 1] == path;
    assert forall k | SegmentStart(path) <= k < |path| :: path[k] in path;
  }

  lemma OneSlash(s: string)
    requires s != "" && s[|s| - 1] != '/'
    ensures DropSlashes(s + "/") == s && !EmptyParams(s + "/")
  {
    DropSlashesFrom(s, "/");
    DropAllSlashes("/");
    assert s + "" == s;
  }

  /** `http://x.onion/a?/` becomes `http://x.onion/a?`, and that becomes `http://x.onion/a`. */
  lemma SlashQueryAddress(a: Address, path: string)
    requires GoodAddress(a) && PlainPath(path)
    ensures var s, r := Text(a, path + "?/"), Text(a, path + "?");
      && IsWeb(s) && ChangesTwice(s) && NormalizeUrl(s) == r && IsWeb(r) && NormalizeUrl(r) == Text(a, path)
  {
    GoodTail(a, path, "?/");
    GoodTail(a, path, "?");
    GoodText(a, path + "?/");
    GoodText(a, path + "?");
    SlashQueryTail(path);
  }

  /** `http://x.onion/a;/` becomes `http://x.onion/a;`, and that becomes `http://x.onion/a`. */
  lemma EmptyParamsAddress(a: Address, path: string)
    requires GoodAddress(a) && PlainPath(path) && ';' !in path
    ensures var s, r := Text(a, path + ";/"), Text(a, path + ";");
      && IsWeb(s) && ChangesTwice(s) && NormalizeUrl(s) == r && IsWeb(r) && NormalizeUrl(r) == Text(a, path)
  {
    GoodTail(a, path, ";/");
    GoodTail(a, path, ";");
    GoodText(a, path + ";/");
    GoodText(a, path + ";");
    EmptyParamsTail(path);
  }

  lemma SiteIsPlain(a: Address, path: string)
    requires a == Address("http", "x.onion", "") && path == "/a"
    ensures GoodAddress(a) && PlainPath(path) && ';' !in path
  {
  }

  /** The site of the two examples. */
  lemma SiteAddresses(a: Address, path: string)
    requires a == Address("http", "x.onion", "") && path == "/a"
    ensures ChangesTwice(Text(a, path + "?/")) && ChangesTwice(Text(a, path + ";/"))
  {
    SiteIsPlain(a, path);
    SlashQueryAddress(a, path);
    EmptyParamsAddress(a, path);
  }

  /**
   Normalising once more changes nothing if and only if the address has neither a query that is made of slashes alone
   nor, with no query, empty parameters before the slashes at the end of its path.
   */
  lemma NormalTwice(s: string)
    requires IsWeb(s)
    ensures IsWeb(NormalizeUrl(s))
    ensures NormalizeUrl(NormalizeUrl(s)) == NormalizeUrl(s) <==> !ChangesTwice(s)
  {
    var a := Split(s).value;
    var r := Tidy(a.rest);
    NormalText(s);
    SplitIsGood(s);
    TidyIsGood(a);
    SplitText(a, r);
    NormalText(NormalizeUrl(s));
    TidyTwice(a.rest);
    TextDiffers(a, Tidy(r), r);
  }
}
