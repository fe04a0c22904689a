/**
 Splitting a path into components. A string ends where the source's terminator would be, so a
 pointer that has reached the terminator is an index equal to the length.
 */
module Paths {
  import opened Machine

  const SLASH := '/'

  // ---------- the two passes ----------

  /** The end of the component that begins at `p`. */
  function WordEnd(s: string, p: nat): (e: nat)
    requires p <= |s|
    ensures p <= e <= |s| && (forall i :: p <= i < e ==> s[i] != SLASH) && (e < |s| ==> s[e] == SLASH)
    decreases |s| - p
  {
    if p < |s| && s[p] != SLASH then WordEnd(s, p + 1) else p
  }

  /** The end of the run of slashes that begins at `p`. */
  function SlashEnd(s: string, p: nat): (e: nat)
    requires p <= |s|
    ensures p <= e <= |s| && (forall i :: p <= i < e ==> s[i] == SLASH) && (e < |s| ==> s[e] != SLASH)
    decreases |s| - p
  {
    if p < |s| && s[p] == SLASH then SlashEnd(s, p + 1) else p
  }

  /** Where the next component begins. */
  function NextWord(s: string, p: nat): (e: nat)
    requires p < |s|
    ensures p < e <= |s|
  {
    SlashEnd(s, WordEnd(s, p))
  }

  /** What the counting pass counts from `p` on. */
  function CountFrom(s: string, p: nat): nat
    requires p <= |s|
    decreases |s| - p
  {
    if p == |s| then 0 else 1 + CountFrom(s, NextWord(s, p))
  }

  /** What the filling pass stores from `p` on. */
  function WordsFrom(s: string, p: nat): (r: seq<string>)
    requires p <= |s|
    decreases |s| - p
  {
    if p == |s| then [] else [s[p..WordEnd(s, p)]] + WordsFrom(s, NextWord(s, p))
  }

  /** One leading slash is skipped. */
  function Begin(s: string): (p: nat)
    ensures p <= |s| && (p == 1 <==> s != [] && s[0] == SLASH)
  {
    if s != [] && s[0] == SLASH then 1 else 0
  }

  function Components(s: string): seq<string> {
    WordsFrom(s, Begin(s))
  }

  /** The passes agree, so that every slot is filled and none is left over. */
  lemma {:induction false} PassesAgree(s: string, p: nat)
    requires p <= |s|
    ensures |WordsFrom(s, p)| == CountFrom(s, p)
    decreases |s| - p
  {
    if p < |s| {
      PassesAgree(s, NextWord(s, p));
    }
  }

  // ---------- the plain definition ----------

  /** The parts between slashes, empty ones included. */
  function Split(s: string): (r: seq<string>)
    ensures r != []
  {
    if s == [] then [""]
    else if s[0] == SLASH then [""] + Split(s[1..])
    else var r := Split(s[1..]); [[s[0]] + r[0]] + r[1..]
  }

  function NonEmpty(parts: seq<string>): seq<string> {
    if parts == [] then []
    else if parts[0] == "" then NonEmpty(parts[1..])
    else [parts[0]] + NonEmpty(parts[1..])
  }

  predicate SlashFree(w: string) {
    SLASH !in w
  }

  /** A word up to a slash is one part. */
  lemma {:induction false} SplitWord(s: string, e: nat)
    requires e <= |s| && (forall i :: 0 <= i < e ==> s[i] != SLASH) && (e < |s| ==> s[e] == SLASH)
    ensures Split(s) == [s[..e]] + if e < |s| then Split(s[e + 1..]) else []
  {
    if e == 0 {
      assert s[..0] == "";
    } else {
      var t := s[1..];
      SplitWord(t, e - 1);
      assert s[..e] == [s[0]] + t[..e - 1];
      if e < |s| {
        assert t[e..] == s[e + 1..];
        assert Split(t) == [t[..e - 1]] + Split(t[e..]);
      }
    }
  }

  lemma {:induction false} NonEmptyAppend(w: string, parts: seq<string>)
    ensures NonEmpty([w] + parts) == (if w == "" then [] else [w]) + NonEmpty(parts)
  {
    assert ([w] + parts)[1..] == parts;
  }

  /** Leading slashes make no difference to the non-empty parts. */
  lemma {:induction false} SkipSlashes(s: string, p: nat)
    requires p <= |s|
    ensures NonEmpty(Split(s[SlashEnd(s, p)..])) == NonEmpty(Split(s[p..]))
    decreases |s| - p
  {
    if p < |s| && s[p] == SLASH {
      SkipSlashes(s, p + 1);
      assert s[p..][1..] == s[p + 1..];
      NonEmptyAppend("", Split(s[p + 1..]));
    }
  }

  /** The parts of the rest of a path, one word at a time. */
  lemma {:induction false} FirstPart(s: string, p: nat)
    requires p <= |s|
    ensures var e := WordEnd(s, p);
      Split(s[p..]) == [s[p..e]] + if e < |s| then Split(s[e + 1..]) else []
  {
    hide Split, WordEnd;
    var e := WordEnd(s, p);
    Slices(s, p, e);
    SplitWord(s[p..], e - p);
  }

  lemma {:induction false} Slices(s: string, p: nat, e: nat)
    requires p <= e <= |s|
    ensures s[p..][..e - p] == s[p..e]
    ensures e < |s| ==> s[p..][e - p + 1..] == s[e + 1..]
    ensures forall i :: 0 <= i < |s| - p ==> s[p..][i] == s[p + i]
  {
  }

  lemma {:induction false} SkipFrom(s: string, e: nat)
    requires e < |s| && s[e] == SLASH
    ensures NonEmpty(Split(s[SlashEnd(s, e)..])) == NonEmpty(Split(s[e + 1..]))
  {
    SkipSlashes(s, e + 1);
    assert SlashEnd(s, e) == SlashEnd(s, e + 1);
    hide Split, NonEmpty;
  }

  lemma {:induction false} NoPartsAtEnd(s: string)
    ensures NonEmpty(Split(s[|s|..])) == []
  {
    assert s[|s|..] == [] && NonEmpty([""]) == NonEmpty([]);
  }

  /** From a place that is not at a slash, the words are the non-empty parts of the rest. */
  lemma {:induction false} WordsAreParts(s: string, p: nat)
    requires p <= |s| && (p < |s| ==> s[p] != SLASH)
    ensures WordsFrom(s, p) == NonEmpty(Split(s[p..]))
    decreases |s| - p
  {
    hide NonEmpty, Split;
    if p == |s| {
      NoPartsAtEnd(s);
    } else {
      var e, n := WordEnd(s, p), NextWord(s, p);
      WordsAreParts(s, n);
      FirstPart(s, p);
      var w := s[p..e];
      assert w != "";
      if e < |s| {
        SkipFrom(s, e);
        NonEmptyAppend(w, Split(s[e + 1..]));
      } else {
        NoPartsAtEnd(s);
        NoParts();
        NonEmptyAppend(w, []);
      }
    }
  }

  lemma {:induction false} NoParts()
    ensures NonEmpty([]) == []
  {
  }

  predicate DoubleSlash(s: string) {
    |s| > 1 && s[0] == SLASH && s[1] == SLASH
  }

  /**
   The components are the non-empty parts between slashes, except that a path that begins with two
   slashes has an empty component in front.
   */
  lemma {:induction false} ComponentsAreParts(s: string)
    ensures Components(s) == (if DoubleSlash(s) then [""] else []) + NonEmpty(Split(s))
  {
    if s == [] {
      assert NonEmpty([""]) == NonEmpty([]);
    } else if s[0] == SLASH {
      NonEmptyAppend("", Split(s[1..]));
      if |s| > 1 && s[1] == SLASH {
        var n := NextWord(s, 1);
        assert s[1..1] == "";
        WordsAreParts(s, n);
        SkipSlashes(s, 1);
      } else {
        WordsAreParts(s, 1);
      }
    } else {
      WordsAreParts(s, 0);
      assert s[0..] == s;
    }
  }

  lemma {:induction false} PartsSlashFree(s: string, w: string)
    ensures w in Split(s) ==> SlashFree(w)
  {
    if s != [] {
      var r := Split(s[1..]);
      PartsSlashFree(s[1..], w);
      PartsSlashFree(s[1..], r[0]);
      if s[0] != SLASH && w in Split(s) {
        assert w == [s[0]] + r[0] || w in r[1..];
      }
    }
  }

  lemma {:induction false} NonEmptyMembers(parts: seq<string>, w: string)
    ensures w in NonEmpty(parts) <==> w in parts && w != ""
  {
    if parts != [] {
      NonEmptyMembers(parts[1..], w);
      assert parts == [parts[0]] + parts[1..];
    }
  }

  /** No component has a slash, and one is empty exactly if the path begins with two slashes. */
  lemma {:induction false} ComponentsClean(s: string)
    ensures forall w <- Components(s) :: SlashFree(w)
    ensures "" in Components(s) <==> DoubleSlash(s)
  {
    ComponentsAreParts(s);
    forall w <- Components(s) ensures SlashFree(w) {
      NonEmptyMembers(Split(s), w);
      PartsSlashFree(s, w);
    }
    NonEmptyMembers(Split(s), "");
  }

  // ---------- joining ----------

  /** "/" before every component. */
  function Join(words: seq<string>): string {
    if words == [] then "" else "/" + words[0] + Join(words[1..])
  }

  ghost predicate Plain(words: seq<string>) {
    forall w <- words :: w != "" && SlashFree(w)
  }

  lemma {:induction false} PlainTail(words: seq<string>)
    requires Plain(words) && words != []
    ensures Plain(words[1..])
  {
    forall w <- words[1..] ensures w in words {
    }
  }

  lemma {:induction false} SplitJoined(w: string, words: seq<string>)
    requires SlashFree(w) && Plain(words)
    ensures Split(w + Join(words)) == [w] + words
    decreases |words|
  {
    hide Split;
    var s := w + Join(words);
    SplitWord(s, |w|);
    assert s[..|w|] == w;
    if words == [] {
      assert s == w;
    } else {
      assert s[|w| + 1..] == words[0] + Join(words[1..]);
      assert words[0] in words;
      PlainTail(words);
      hide Join, Plain;
      SplitJoined(words[0], words[1..]);
      assert [words[0]] + words[1..] == words;
    }
  }

  lemma {:induction false} NonEmptyPlain(words: seq<string>)
    requires Plain(words)
    ensures NonEmpty(words) == words
  {
    if words != [] {
      assert words[0] in words;
      PlainTail(words);
      NonEmptyPlain(words[1..]);
    }
  }

  lemma {:induction false} JoinedParts(words: seq<string>)
    requires Plain(words)
    ensures NonEmpty(Split(Join(words))) == words
  {
    assert "" + Join(words) == Join(words);
    SplitJoined("", words);
    NonEmptyAppend("", words);
    NonEmptyPlain(words);
  }

  lemma {:induction false} JoinBegins(words: seq<string>)
    requires words != []
    ensures var s := Join(words);
      && s[0] == SLASH
      && s[1..] == words[0] + Join(words[1..])
      && (DoubleSlash(s) <==> if words[0] == "" then |words| > 1 else words[0][0] == SLASH)
  {
    var s, w := Join(words), words[0];
    assert s[1..] == w + Join(words[1..]);
    if w == "" {
      assert s[1..] == Join(words[1..]);
    } else {
      assert s[1] == w[0];
    }
  }

  /** Parsing a joined path gives its components back. */
  lemma {:induction false} ParseJoin(words: seq<string>)
    requires Plain(words)
    ensures Components(Join(words)) == words
  {
    ComponentsAreParts(Join(words));
    JoinedParts(words);
    if words != [] {
      JoinBegins(words);
      assert words[0] in words && words[0][0] in words[0];
    }
    hide Components, NonEmpty, Split, Join;
    assert [] + words == words;
  }

  /** So it does if the first one is empty and others follow. */
  lemma {:induction false} ParseJoinEmpty(words: seq<string>)
    requires Plain(words) && words != []
    ensures Components(Join([""] + words)) == [""] + words
  {
    var all := [""] + words;
    assert all[1..] == words;
    JoinBegins(all);
    ComponentsAreParts(Join(all));
    assert "" + Join(words) == Join(words);
    NonEmptyAppend("", Split(Join(words)));
    JoinedParts(words);
  }

  lemma {:induction false} JoinAppend(words: seq<string>, w: string)
    ensures Join(words + [w]) == Join(words) + "/" + w
  {
    if words == [] {
      assert words + [w] == [w] && [w][1..] == [];
    } else {
      assert (words + [w])[1..] == words[1..] + [w];
      JoinAppend(words[1..], w);
    }
  }

  /** The path of the directory that holds the last component. */
  function ParentPath(words: seq<string>): string
    requires words != []
  {
    if |words| == 1 then "/" else Join(words[..|words| - 1])
  }

  /** The parent's path is absolute, and with the last component it is the joined path. */
  lemma {:induction false} ParentRebuilds(words: seq<string>)
    requires words != []
    ensures var parent, last := ParentPath(words), words[|words| - 1];
      && parent != "" && parent[0] == '/'
      && if |words| == 1 then parent == "/" && parent + last == Join(words) else parent + "/" + last == Join(words)
  {
    var above, last := words[..|words| - 1], words[|words| - 1];
    assert words == above + [last];
    JoinAppend(above, last);
    if |words| == 1 {
      assert above == [];
      assert "" + "/" + last == "/" + last;
    }
  }

  /**
   The parent's path parses to all components but the last, except for two components of which the
   first is empty: then it parses to none.
   */
  lemma {:induction false} ParentParses(s: string)
    requires Components(s) != []
    ensures var words := Components(s);
      Components(ParentPath(words)) == words[..|words| - 1] <==> !(DoubleSlash(s) && |words| == 2)
  {
    var words := Components(s);
    var above := words[..|words| - 1];
    ComponentsClean(s);
    assert Components("/") == [];
    if !DoubleSlash(s) {
      assert Plain(above);
      ParseJoin(above);
    } else if |words| > 1 {
      ComponentsAreParts(s);
      assert words[0] == "" && words[1..] == NonEmpty(Split(s));
      if |words| == 2 {
        assert Join(above) == "/" + "" + Join([]);
        assert Join(above) == "/";
      } else {
        var rest := above[1..];
        forall w <- rest ensures w != "" && SlashFree(w) {
          assert w in words[1..];
          NonEmptyMembers(Split(s), w);
        }
        assert above == [""] + rest;
        ParseJoinEmpty(rest);
      }
    }
  }

  // ---------- the parser ----------

  /** Moves a pointer to the end of a component. */
  method SkipWord(path: string, p: nat) returns (e: nat)
    requires p <= |path|
    ensures e == WordEnd(path, p)
  {
    e := p;
    while e < |path| && path[e] != SLASH
      invariant p <= e <= |path| && WordEnd(path, e) == WordEnd(path, p)
    {
      e := e + 1;
    }
  }

  /** Moves a pointer behind a run of slashes. */
  method SkipSlash(path: string, p: nat) returns (e: nat)
    requires p <= |path|
    ensures e == SlashEnd(path, p)
  {
    e := p;
    while e < |path| && path[e] == SLASH
      invariant p <= e <= |path| && SlashEnd(path, e) == SlashEnd(path, p)
    {
      e := e + 1;
    }
  }

  /** The counting pass. */
  method CountComponents(path: string) returns (count: nat)
    ensures count == CountFrom(path, Begin(path))
  {
    hide WordEnd, SlashEnd;
    count := 0;
    var p := 0;
    if p < |path| && path[p] == SLASH {
      p := p + 1;
    }
    while p < |path|
      invariant p <= |path| && count + CountFrom(path, p) == CountFrom(path, Begin(path))
    {
      count := count + 1;
      ghost var start := p;
      p := SkipWord(path, p);
      p := SkipSlash(path, p);
      assert p == NextWord(path, start);
    }
  }

  /** The first component from `p` on. */
  lemma {:induction false} FirstWord(s: string, p: nat, words: seq<string>, i: nat)
    requires p < |s| && i <= |words| && words[i..] == WordsFrom(s, p)
    ensures i < |words| && words[i] == s[p..WordEnd(s, p)]
    ensures words[i + 1..] == WordsFrom(s, NextWord(s, p))
  {
    assert words[i] == words[i..][0];
    assert words[i + 1..] == words[i..][1..];
  }

  /**
   Splits a path into a new array with one slot for each component and an empty one at the end.
   `granted` is how many requests for memory are granted before one is refused: the array takes one
   and each component another. After a refusal there is no result.
   */
  method ParsePath(path: string, granted: nat) returns (components: Option<array<Option<string>>>, count: nat)
    ensures components.Some? <==> |Components(path)| < granted
    ensures match components
      case Some(a) =>
        && fresh(a) && count == |Components(path)| && a.Length == count + 1 && a[count] == None
        && forall i :: 0 <= i < count ==> a[i] == Some(Components(path)[i])
      case None => count == 0
  {
    hide Components, CountFrom;
    count := CountComponents(path);
    PassesMatch(path);
    if granted == 0 {
      return None, 0;
    }
    var a := new Option<string>[count + 1](_ => None);
    var filled := FillComponents(path, a, granted - 1);
    if filled {
      components := Some(a);
    } else {
      components, count := None, 0;
    }
  }

  lemma {:induction false} PassesMatch(s: string)
    ensures |Components(s)| == CountFrom(s, Begin(s))
  {
    PassesAgree(s, Begin(s));
  }

  /** The filling pass. */
  method FillComponents(path: string, a: array<Option<string>>, granted: nat) returns (filled: bool)
    requires a.Length == |Components(path)| + 1
    modifies a
    ensures filled <==> |Components(path)| <= granted
    ensures filled ==> forall i :: 0 <= i < |Components(path)| ==> a[i] == Some(Components(path)[i])
    ensures filled ==> a[|Components(path)|] == None
  {
    ghost var words := Components(path);
    assert words[0..] == words;
    hide WordEnd, SlashEnd, WordsFrom, Components;
    var i, p := 0, 0;
    if p < |path| && path[p] == SLASH {
      p := p + 1;
    }
    while p < |path|
      invariant p <= |path| && i <= |words| && words[i..] == WordsFrom(path, p) && i <= granted
      invariant forall j :: 0 <= j < i ==> a[j] == Some(words[j])
      decreases |path| - p
    {
      FirstWord(path, p, words, i);
      var start := p;
      p := SkipWord(path, p);
      if granted <= i {
        return false;
      }
      a[i] := Some(path[start..p]);
      i := i + 1;
      p := SkipSlash(path, p);
      assert p == NextWord(path, start);
    }
    NoWords(path);
    assert words[i..] == [];
    a[i] := None;
    filled := true;
  }

  lemma {:induction false} NoWords(s: string)
    ensures WordsFrom(s, |s|) == []
  {
  }

  /** Builds the path of the directory that holds the last component. */
  method BuildParentPath(words: seq<string>) returns (parent: string)
    requires words != []
    ensures parent == ParentPath(words)
  {
    if |words| == 1 {
      return "/";
    }
    parent := "";
    for i := 0 to |words| - 1
      invariant parent == Join(words[..i])
    {
      assert words[..i + 1] == words[..i] + [words[i]];
      JoinAppend(words[..i], words[i]);
      parent := parent + "/" + words[i];
    }
    if |parent| == 0 {
      // A path of at least one component is not empty.
      assert false;
    }
  }

  // ---------- the length of a parent path ----------

  const PATH_MAX := 256

  lemma {:induction false} JoinLength(words: seq<string>, w: string)
    ensures |Join([w] + words)| == 1 + |w| + |Join(words)|
  {
    assert ([w] + words)[1..] == words;
  }

  /** All components but the last, with a slash each, are no longer than the path. */
  lemma {:induction false} JoinedFits(s: string, p: nat)
    requires p < |s|
    ensures var words := WordsFrom(s, p);
      words != [] && |Join(words[..|words| - 1])| <= |s| - p
    decreases |s| - p
  {
    var e, n := WordEnd(s, p), NextWord(s, p);
    var words, rest := WordsFrom(s, p), WordsFrom(s, n);
    assert words == [s[p..e]] + rest;
    if n < |s| {
      JoinedFits(s, n);
      assert words[..|words| - 1] == [s[p..e]] + rest[..|rest| - 1];
      JoinLength(rest[..|rest| - 1], s[p..e]);
      assert e < n;
    } else {
      assert words[..|words| - 1] == [];
    }
  }

  /** The parent path of a path of at most 255 characters fits its buffer with the terminator. */
  lemma {:induction false} ParentFits(s: string)
    requires Components(s) != [] && |s| < PATH_MAX
    ensures |ParentPath(Components(s))| < PATH_MAX
  {
    JoinedFits(s, Begin(s));
  }
}
