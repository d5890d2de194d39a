/**
 Rate-limit bucket keys: a request path is cut into segments and every id that is not a
 major parameter becomes ":id". The Go and Rust clients differ only in the
 separator after the method (a space and a colon).
 */
module RouteKey {
  import opened Common

  const SLASH: char := '/'

  /** Cuts at every slash; the empty string is one empty segment. */
  function Split(s: string): (segments: seq<string>)
    ensures |segments| > 0
  {
    if s == "" then [""]
    else
      var rest := Split(s[1..]);
      if s[0] == SLASH then [""] + rest else [[s[0]] + rest[0]] + rest[1..]
  }

  function Join(ss: seq<string>): string
    requires |ss| > 0
  {
    if |ss| == 1 then ss[0] else ss[0] + [SLASH] + Join(ss[1..])
  }

  function TrimLeft(s: string): string {
    if s != "" && s[0] == SLASH then TrimLeft(s[1..]) else s
  }

  function TrimRight(s: string): string {
    if s != "" && s[|s| - 1] == SLASH then TrimRight(s[..|s| - 1]) else s
  }

  function Segments(path: string): seq<string> {
    Split(TrimRight(TrimLeft(path)))
  }

  predicate IsSnowflake(segment: string) {
    |segment| >= 15 && forall c | c in segment :: '0' <= c <= '9'
  }

  predicate IsMajor(segment: string) {
    segment == "channels" || segment == "guilds" || segment == "webhooks"
  }

  predicate AfterMajor(segments: seq<string>, i: nat)
    requires i < |segments|
  {
    i > 0 && IsMajor(segments[i - 1])
  }

  function Normal(segments: seq<string>, i: nat): string
    requires i < |segments|
  {
    if IsSnowflake(segments[i]) && !AfterMajor(segments, i) then ":id" else segments[i]
  }

  /** The first `n` segments in normal form. */
  function NormalTo(segments: seq<string>, n: nat): (ns: seq<string>)
    requires n <= |segments|
    ensures |ns| == n && forall i | 0 <= i < n :: ns[i] == Normal(segments, i)
  {
    if n == 0 then [] else NormalTo(segments, n - 1) + [Normal(segments, n - 1)]
  }

  function NormalSegments(segments: seq<string>): (ns: seq<string>)
    ensures |ns| == |segments| && forall i | 0 <= i < |ns| :: ns[i] == Normal(segments, i)
  {
    NormalTo(segments, |segments|)
  }

  function NormalPath(path: string): string {
    Join(NormalSegments(Segments(path)))
  }

  function Key(verb: string, separator: char, path: string): string {
    verb + [separator] + NormalPath(path)
  }

  lemma {:induction false} JoinAppend(ss: seq<string>, last: string)
    requires |ss| > 0
    ensures Join(ss + [last]) == Join(ss) + [SLASH] + last
  {
    if |ss| == 1 {
      assert (ss + [last])[1..] == [last];
    } else {
      JoinAppend(ss[1..], last);
      assert (ss + [last])[1..] == ss[1..] + [last];
      Assoc(ss[0] + [SLASH], Join(ss[1..]) + [SLASH], last);
      Assoc(ss[0] + [SLASH], Join(ss[1..]), [SLASH]);
    }
  }

  method RouteBucketKey(verb: string, separator: char, path: string) returns (key: string)
    ensures key == Key(verb, separator, path)
  {
    var segments := Segments(path);
    var builder := verb + [separator];
    var previous := "";
    for i := 0 to |segments|
      invariant previous == (if i == 0 then "" else segments[i - 1])
      invariant builder == verb + [separator] + (if i == 0 then "" else Join(NormalTo(segments, i)))
    {
      var segment := segments[i];
      var piece := if IsSnowflake(segment) && !IsMajor(previous) then ":id" else segment;
      assert piece == Normal(segments, i);
      if i > 0 {
        JoinAppend(NormalTo(segments, i), piece);
        Assoc(verb + [separator], Join(NormalTo(segments, i)), [SLASH]);
        Assoc(verb + [separator], Join(NormalTo(segments, i)) + [SLASH], piece);
        builder := builder + [SLASH];
      }
      builder := builder + piece;
      previous := segment;
    }
    key := builder;
  }

  // ---- Splitting and joining are inverse -----------------------------------

  predicate SlashFree(s: string) {
    SLASH !in s
  }

  predicate AllSlashFree(ss: seq<string>) {
    forall i | 0 <= i < |ss| :: SlashFree(ss[i])
  }

  lemma {:induction false} SplitSlashFree(s: string)
    ensures AllSlashFree(Split(s))
  {
    if s != "" {
      SplitSlashFree(s[1..]);
      var rest := Split(s[1..]);
      assert SlashFree(rest[0]);
    }
  }

  lemma {:induction false} SplitPrefix(head: string, tail: string)
    requires SlashFree(head)
    ensures Split(head + tail) == [head + Split(tail)[0]] + Split(tail)[1..]
  {
    if head == "" {
      assert head + tail == tail;
      assert [Split(tail)[0]] + Split(tail)[1..] == Split(tail);
      Assoc(Split(tail)[0], "", "");
    } else {
      assert head[0] in head;
      SplitPrefix(head[1..], tail);
      assert (head + tail)[1..] == head[1..] + tail;
      assert [head[0]] + (head[1..] + Split(tail)[0]) == head + Split(tail)[0];
    }
  }

  lemma {:induction false} SplitOfJoin(ss: seq<string>)
    requires |ss| > 0 && AllSlashFree(ss)
    ensures Split(Join(ss)) == ss
  {
    assert SlashFree(ss[0]);
    if |ss| == 1 {
      SplitPrefix(ss[0], "");
      Assoc(ss[0], "", "");
    } else {
      assert AllSlashFree(ss[1..]);
      SplitOfJoin(ss[1..]);
      var tail := [SLASH] + Join(ss[1..]);
      assert tail[1..] == Join(ss[1..]);
      SplitPrefix(ss[0], tail);
      Assoc(ss[0], [SLASH], Join(ss[1..]));
      Assoc(ss[0], "", "");
    }
  }

  // ---- When two requests share a bucket ------------------------------------

  /**
   The segment does not show in the key: it is ":id" itself, or fifteen or more digits that do not follow
   "channels", "guilds" or "webhooks".
   */
  ghost predicate Hidden(segments: seq<string>, i: nat)
    requires i < |segments|
  {
    || segments[i] == ":id"
    || (&& |segments[i]| >= 15 && (forall k | 0 <= k < |segments[i]| :: '0' <= segments[i][k] <= '9')
        && (i == 0 || (segments[i - 1] != "channels" && segments[i - 1] != "guilds" && segments[i - 1] != "webhooks")))
  }

  lemma HiddenIs(segments: seq<string>, i: nat)
    requires i < |segments|
    ensures Hidden(segments, i) <==> segments[i] == ":id" || (IsSnowflake(segments[i]) && !AfterMajor(segments, i))
  {
    assert forall k | 0 <= k < |segments[i]| :: segments[i][k] in segments[i];
  }

  /** Position by position, equal segments or two hidden ones. */
  ghost predicate SameRoute(a: seq<string>, b: seq<string>) {
    |a| == |b| && forall i | 0 <= i < |a| :: a[i] == b[i] || (Hidden(a, i) && Hidden(b, i))
  }

  lemma NamesAreNotIds(s: string)
    ensures IsMajor(s) ==> !IsSnowflake(s) && s != ":id"
    ensures !IsSnowflake(":id")
  {
    if s == "channels" { assert s[0] == 'c'; }
    if s == "guilds" { assert s[0] == 'g'; }
    if s == "webhooks" { assert s[0] == 'w'; }
  }

  lemma SameRouteIffSameNormal(a: seq<string>, b: seq<string>)
    ensures SameRoute(a, b) <==> NormalSegments(a) == NormalSegments(b)
  {
    NamesAreNotIds("");
    if NormalSegments(a) == NormalSegments(b) {
      forall i | 0 <= i < |a|
        ensures a[i] == b[i] || (Hidden(a, i) && Hidden(b, i))
      {
        HiddenIs(a, i);
        HiddenIs(b, i);
        assert NormalSegments(a)[i] == NormalSegments(b)[i];
      }
    }
    if SameRoute(a, b) {
      forall i | 0 <= i < |a|
        ensures Normal(a, i) == Normal(b, i)
      {
        SameNormalAt(a, b, i);
      }
    }
  }

  lemma SameNormalAt(a: seq<string>, b: seq<string>, i: nat)
    requires SameRoute(a, b) && i < |a|
    ensures Normal(a, i) == Normal(b, i)
  {
    HiddenIs(a, i);
    HiddenIs(b, i);
    NamesAreNotIds("");
    if i > 0 {
      NamesAreNotIds(a[i - 1]);
      NamesAreNotIds(b[i - 1]);
      HiddenIs(a, i - 1);
      HiddenIs(b, i - 1);
      assert a[i - 1] == b[i - 1] || (Hidden(a, i - 1) && Hidden(b, i - 1));
      assert AfterMajor(a, i) == AfterMajor(b, i);
    }
  }

  lemma {:induction false} SameVerb(verb: string, verb': string, separator: char, rest: string, rest': string)
    requires separator !in verb && separator !in verb'
    requires verb + [separator] + rest == verb' + [separator] + rest'
    ensures verb == verb' && rest == rest'
  {
    var s := verb + [separator] + rest;
    FirstIsSeparator(verb, separator, rest);
    FirstIsSeparator(verb', separator, rest');
    if verb == "" {
      assert s[1..] == rest;
      assert (verb' + [separator] + rest')[1..] == rest';
    } else {
      assert s[1..] == verb[1..] + [separator] + rest;
      assert (verb' + [separator] + rest')[1..] == verb'[1..] + [separator] + rest';
      SameVerb(verb[1..], verb'[1..], separator, rest, rest');
      assert s[0] == verb[0] && s[0] == verb'[0];
      assert verb == [verb[0]] + verb[1..] && verb' == [verb'[0]] + verb'[1..];
    }
  }

  lemma FirstIsSeparator(verb: string, separator: char, rest: string)
    requires separator !in verb
    ensures (verb + [separator] + rest)[0] == separator <==> verb == ""
  {
    assert verb != "" ==> verb[0] in verb;
  }

  /**
   Two requests share a bucket exactly when they have the same method and, position by position,
   the same segments up to ids that are not major parameters.
   */
  lemma SharedBucket(verb: string, path: string, verb': string, path': string, separator: char)
    requires separator !in verb && separator !in verb'
    ensures Key(verb, separator, path) == Key(verb', separator, path') <==>
            verb == verb' && SameRoute(Segments(path), Segments(path'))
  {
    var a, b := Segments(path), Segments(path');
    SameRouteIffSameNormal(a, b);
    if Key(verb, separator, path) == Key(verb', separator, path') {
      SameVerb(verb, verb', separator, NormalPath(path), NormalPath(path'));
      SplitSlashFree(TrimRight(TrimLeft(path)));
      SplitSlashFree(TrimRight(TrimLeft(path')));
      SplitOfJoin(NormalSegments(a));
      SplitOfJoin(NormalSegments(b));
    }
  }

  // ---- The segments of a path ------------------------------------------------

  lemma {:induction false} JoinOfSplit(s: string)
    ensures Join(Split(s)) == s
  {
    if s != "" {
      JoinOfSplit(s[1..]);
      var rest := Split(s[1..]);
      assert s == [s[0]] + s[1..];
      if s[0] == SLASH {
        assert ([""] + rest)[1..] == rest;
        Assoc("", [SLASH], Join(rest));
      } else if |rest| > 1 {
        var all := [[s[0]] + rest[0]] + rest[1..];
        assert all[1..] == rest[1..];
        Assoc([s[0]], rest[0], [SLASH]);
        Assoc([s[0]], rest[0] + [SLASH], Join(rest[1..]));
      }
    }
  }

  /** The segments are what lies between the slashes of the path, once those at its ends are gone. */
  lemma SegmentsOf(path: string) returns (a: nat, b: nat)
    ensures a <= b <= |path| && path[a..b] == Join(Segments(path)) && AllSlashFree(Segments(path))
    ensures (forall i | 0 <= i < a || b <= i < |path| :: path[i] == SLASH)
    ensures a < b ==> path[a] != SLASH && path[b - 1] != SLASH
  {
    JoinOfSplit(TrimRight(TrimLeft(path)));
    SplitSlashFree(TrimRight(TrimLeft(path)));
    a := TrimmedLeft(path);
    var n := TrimmedRight(path[a..]);
    b := a + n;
    assert path[a..][..n] == path[a..b];
    assert forall i | b <= i < |path| :: path[i] == path[a..][i - a];
  }

  lemma {:induction false} TrimmedLeft(s: string) returns (a: nat)
    ensures a <= |s| && TrimLeft(s) == s[a..] && (forall i | 0 <= i < a :: s[i] == SLASH)
    ensures a < |s| ==> s[a] != SLASH
  {
    a := 0;
    if s != "" && s[0] == SLASH {
      a := TrimmedLeft(s[1..]);
      assert s[1..][a..] == s[a + 1..] && forall i | 0 < i <= a :: s[i] == s[1..][i - 1];
      a := a + 1;
    }
  }

  lemma {:induction false} TrimmedRight(s: string) returns (n: nat)
    ensures n <= |s| && TrimRight(s) == s[..n] && (forall i | n <= i < |s| :: s[i] == SLASH)
    ensures n > 0 ==> s[n - 1] != SLASH
  {
    n := |s|;
    if s != "" && s[|s| - 1] == SLASH {
      n := TrimmedRight(s[..|s| - 1]);
      assert s[..|s| - 1][..n] == s[..n];
    }
  }

  // ---- Normalising twice changes nothing -----------------------------------

  /** No slash at either end. */
  predicate Trimmed(s: string) {
    s == "" || (s[0] != SLASH && s[|s| - 1] != SLASH)
  }

  lemma {:induction false} TrimTrims(s: string)
    ensures var t := TrimLeft(s); t == "" || t[0] != SLASH
    ensures Trimmed(TrimRight(TrimLeft(s)))
  {
    if s != "" && s[0] == SLASH {
      TrimTrims(s[1..]);
    } else {
      TrimRightEnds(s);
    }
  }

  lemma {:induction false} TrimRightEnds(s: string)
    requires s == "" || s[0] != SLASH
    ensures Trimmed(TrimRight(s))
  {
    if s != "" && s[|s| - 1] == SLASH {
      TrimRightEnds(s[..|s| - 1]);
    }
  }

  lemma TrimmedStays(s: string)
    requires Trimmed(s)
    ensures TrimRight(TrimLeft(s)) == s
  {
  }

  /** The ends of a trimmed string give non-empty first and last segments. */
  lemma {:induction false} SplitEnds(s: string)
    requires s != "" && s[|s| - 1] != SLASH
    ensures Split(s)[|Split(s)| - 1] != ""
    ensures s[0] != SLASH ==> Split(s)[0] != ""
  {
    if |s| > 1 {
      SplitEnds(s[1..]);
    }
  }

  lemma {:induction false} JoinEnds(ss: seq<string>)
    requires |ss| > 0 && AllSlashFree(ss) && ss[|ss| - 1] != ""
    ensures Join(ss) != "" && Join(ss)[|Join(ss)| - 1] != SLASH
    ensures ss[0] != "" ==> Join(ss)[0] != SLASH
  {
    assert SlashFree(ss[0]);
    if ss[0] != "" {
      assert ss[0][0] in ss[0];
    }
    if |ss| == 1 {
      assert ss[0][|ss[0]| - 1] in ss[0];
    } else {
      JoinEnds(ss[1..]);
    }
  }

  lemma NormalTwice(segments: seq<string>)
    ensures NormalSegments(NormalSegments(segments)) == NormalSegments(segments)
  {
    var ns := NormalSegments(segments);
    forall i | 0 <= i < |segments|
      ensures Hidden(ns, i) ==> Hidden(segments, i)
      ensures ns[i] == segments[i] || (Hidden(ns, i) && Hidden(segments, i))
    {
      HiddenIs(ns, i);
      HiddenIs(segments, i);
      NamesAreNotIds("");
      if i > 0 {
        NamesAreNotIds(segments[i - 1]);
      }
    }
    SameRouteIffSameNormal(ns, segments);
  }

  lemma Idempotent(path: string)
    ensures NormalPath(NormalPath(path)) == NormalPath(path)
  {
    var trimmed := TrimRight(TrimLeft(path));
    var a := Segments(path);
    TrimTrims(path);
    SplitSlashFree(trimmed);
    if trimmed != "" {
      SplitEnds(trimmed);
      JoinEnds(NormalSegments(a));
    }
    TrimmedStays(NormalPath(path));
    SplitOfJoin(NormalSegments(a));
    NormalTwice(a);
  }
}
