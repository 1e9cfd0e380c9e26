/**
 Object keys and version ids: how a vault's base key and a version id become
 the key of one object, and how a client's version id is made safe to use.
 */
module KeyLayout {
  import opened Results

  /** Separates a blob's base key from its per-version objects. */
  const VERSION_SEGMENT: string := "/v/"

  /** The Unicode White_Space property, which is what trimming removes. */
  predicate IsWhitespace(c: char) {
    var n := c as int;
    || 9 <= n <= 13 || n == 0x20 || n == 0x85 || n == 0xA0 || n == 0x1680
    || 0x2000 <= n <= 0x200A || n == 0x2028 || n == 0x2029 || n == 0x202F || n == 0x205F || n == 0x3000
  }

  predicate IsQuote(c: char) {
    c == '"'
  }

  function TrimStart(s: string, drop: char -> bool): (r: string) {
    if s != [] && drop(s[0]) then TrimStart(s[1..], drop) else s
  }

  function TrimEnd(s: string, drop: char -> bool): (r: string) {
    if s != [] && drop(s[|s| - 1]) then TrimEnd(s[..|s| - 1], drop) else s
  }

  function TrimMatches(s: string, drop: char -> bool): (r: string) {
    TrimEnd(TrimStart(s, drop), drop)
  }

  /** Whitespace is trimmed first, then quotes; whitespace inside the quotes stays. */
  function NormalizeVersionId(versionId: string): (r: string) {
    TrimMatches(TrimMatches(versionId, IsWhitespace), IsQuote)
  }

  /** Neither end of the string is a character to drop. */
  predicate CleanEdges(s: string, drop: char -> bool) {
    s == [] || (!drop(s[0]) && !drop(s[|s| - 1]))
  }

  lemma {:induction false} TrimStartShape(s: string, drop: char -> bool)
    ensures var r := TrimStart(s, drop);
            && |r| <= |s|
            && (r == [] || (!drop(r[0]) && r[|r| - 1] == s[|s| - 1]))
            && (s != [] && drop(s[0]) ==> |r| < |s|)
  {
    if s != [] && drop(s[0]) { TrimStartShape(s[1..], drop); }
  }

  lemma {:induction false} TrimEndShape(s: string, drop: char -> bool)
    ensures var r := TrimEnd(s, drop);
            && |r| <= |s|
            && (r == [] || (!drop(r[|r| - 1]) && r[0] == s[0]))
            && (s != [] && drop(s[|s| - 1]) ==> |r| < |s|)
  {
    if s != [] && drop(s[|s| - 1]) { TrimEndShape(s[..|s| - 1], drop); }
  }

  /** Trimming leaves clean edges, and leaves exactly the strings that had them untouched. */
  lemma TrimShape(s: string, drop: char -> bool)
    ensures |TrimMatches(s, drop)| <= |s|
    ensures CleanEdges(TrimMatches(s, drop), drop)
    ensures TrimMatches(s, drop) == s <==> CleanEdges(s, drop)
    ensures |TrimMatches(s, drop)| == |s| ==> TrimMatches(s, drop) == s
  {
    TrimStartShape(s, drop);
    TrimEndShape(TrimStart(s, drop), drop);
  }

  /** An id is already normalised exactly when neither end is whitespace or a quote. */
  lemma NormalizedIffCleanEdges(s: string)
    ensures NormalizeVersionId(s) == s <==> CleanEdges(s, IsWhitespace) && CleanEdges(s, IsQuote)
  {
    var inner := TrimMatches(s, IsWhitespace);
    TrimShape(s, IsWhitespace);
    TrimShape(inner, IsQuote);
    if NormalizeVersionId(s) == s {
      assert |inner| == |s|;
      assert inner == s;
    }
  }

  /**
   Normalising twice is the same as normalising once exactly when the quotes did
   not enclose whitespace at an end.
   */
  lemma NormalizeTwiceIff(s: string)
    ensures NormalizeVersionId(NormalizeVersionId(s)) == NormalizeVersionId(s)
       <==> CleanEdges(NormalizeVersionId(s), IsWhitespace)
  {
    TrimShape(TrimMatches(s, IsWhitespace), IsQuote);
    NormalizedIffCleanEdges(NormalizeVersionId(s));
  }

  lemma TrimOneEachSide(first: char, mid: string, last: char, drop: char -> bool)
    requires mid != [] && CleanEdges(mid, drop) && drop(first) && drop(last)
    ensures TrimMatches([first] + mid + [last], drop) == mid
  {
    var s := [first] + mid + [last];
    assert s[1..] == mid + [last];
    assert TrimStart(s, drop) == TrimStart(mid + [last], drop) == mid + [last];
    assert (mid + [last])[..|mid|] == mid;
    assert TrimEnd(mid + [last], drop) == TrimEnd(mid, drop) == mid;
  }

  predicate AllDropped(s: string, drop: char -> bool) {
    forall i :: 0 <= i < |s| ==> drop(s[i])
  }

  lemma {:induction false} TrimStartDrops(pre: string, s: string, drop: char -> bool)
    requires AllDropped(pre, drop)
    ensures TrimStart(pre + s, drop) == TrimStart(s, drop)
  {
    if pre == "" {
      assert pre + s == s;
    } else {
      assert (pre + s)[1..] == pre[1..] + s;
      TrimStartDrops(pre[1..], s, drop);
    }
  }

  lemma {:induction false} TrimEndDrops(s: string, post: string, drop: char -> bool)
    requires AllDropped(post, drop)
    ensures TrimEnd(s + post, drop) == TrimEnd(s, drop)
  {
    if post == "" {
      assert s + post == s;
    } else {
      var n := |post| - 1;
      assert (s + post)[..|s + post| - 1] == s + post[..n];
      TrimEndDrops(s, post[..n], drop);
    }
  }

  /** Trimming takes away exactly what surrounds a text with clean edges, however much of it there is. */
  lemma TrimsTo(pre: string, core: string, post: string, drop: char -> bool)
    requires AllDropped(pre, drop) && AllDropped(post, drop) && CleanEdges(core, drop)
    ensures TrimMatches(pre + core + post, drop) == core
  {
    if core == "" {
      assert pre + core + post == (pre + post) + "";
      TrimStartDrops(pre + post, "", drop);
      assert TrimStart("", drop) == "" && TrimEnd("", drop) == "";
    } else {
      assert pre + core + post == pre + (core + post);
      TrimStartDrops(pre, core + post, drop);
      TrimEndDrops(core, post, drop);
    }
  }

  /** Normalising strips any whitespace around the id, and then any quotes. */
  lemma NormalizesTo(space1: string, quotes1: string, id: string, quotes2: string, space2: string)
    requires AllDropped(space1, IsWhitespace) && AllDropped(space2, IsWhitespace)
    requires AllDropped(quotes1, IsQuote) && AllDropped(quotes2, IsQuote)
    requires CleanEdges(quotes1 + id + quotes2, IsWhitespace) && CleanEdges(id, IsQuote)
    ensures NormalizeVersionId(space1 + (quotes1 + id + quotes2) + space2) == id
  {
    TrimsTo(space1, quotes1 + id + quotes2, space2, IsWhitespace);
    TrimsTo(quotes1, id, quotes2, IsQuote);
  }

  /** The inputs for which normalising is not idempotent: an id quoted together with a leading space. */
  lemma QuotedSpaceSurvivesNormalizing(id: string)
    requires id != [] && CleanEdges(id, IsWhitespace) && CleanEdges(id, IsQuote)
    ensures NormalizeVersionId("\"" + " " + id + "\"") == " " + id
    ensures NormalizeVersionId(" " + id) != " " + id
  {
    var mid := " " + id;
    var s := ['"'] + mid + ['"'];
    assert "\"" + " " + id + "\"" == s;
    TrimShape(s, IsWhitespace);
    TrimOneEachSide('"', mid, '"', IsQuote);
    NormalizedIffCleanEdges(mid);
  }

  predicate IsIdChar(c: char) {
    'a' <= c <= 'z' || 'A' <= c <= 'Z' || '0' <= c <= '9' || c == '.' || c == '-' || c == '_'
  }

  predicate HasDotDot(s: string) {
    exists i :: 0 <= i < |s| - 1 && s[i] == '.' && s[i + 1] == '.'
  }

  /** What a version id must look like to be concatenated into an object key. */
  predicate ValidId(v: string) {
    && v != []
    && |v| <= 128
    && (forall i :: 0 <= i < |v| ==> IsIdChar(v[i]))
    && !HasDotDot(v)
  }

  function ValidateVersionId(raw: string): (r: Result<string>) {
    var v := NormalizeVersionId(raw);
    if v == [] then Err(BadRequest)
    else if |v| > 128 then Err(BadRequest)
    else if exists i :: 0 <= i < |v| && !IsIdChar(v[i]) then Err(BadRequest)
    else if HasDotDot(v) then Err(BadRequest)
    else Ok(v)
  }

  lemma LeadingSpaceIsTrimmed(id: string)
    requires id != [] && CleanEdges(id, IsWhitespace) && CleanEdges(id, IsQuote)
    ensures NormalizeVersionId(" " + id) == id
  {
    assert (" " + id)[1..] == id;
    assert TrimStart(" " + id, IsWhitespace) == TrimStart(id, IsWhitespace) == id;
    TrimShape(id, IsWhitespace);
    TrimShape(id, IsQuote);
  }

  lemma IdCharsAreNeverTrimmed(c: char)
    requires IsIdChar(c)
    ensures !IsWhitespace(c) && !IsQuote(c)
  {
  }

  /** A valid id survives normalisation and validation unchanged. */
  lemma ValidIdIsFixedPoint(v: string)
    requires ValidId(v)
    ensures NormalizeVersionId(v) == v
    ensures ValidateVersionId(v) == Ok(v)
  {
    IdCharsAreNeverTrimmed(v[0]);
    IdCharsAreNeverTrimmed(v[|v| - 1]);
    NormalizedIffCleanEdges(v);
  }

  /** Validation accepts exactly the inputs whose normal form is a valid id, and returns that form. */
  lemma ValidationAccepts(raw: string, v: string)
    ensures ValidateVersionId(raw) == Ok(v) <==> v == NormalizeVersionId(raw) && ValidId(v)
  {
  }

  /** The object key holding one stored version of a blob. */
  function VersionKey(objectKey: string, versionId: string): (r: string)
  {
    objectKey + VERSION_SEGMENT + versionId
  }

  predicate SegmentAt(k: string, i: nat) {
    i + 3 <= |k| && k[i] == '/' && k[i + 1] == 'v' && k[i + 2] == '/'
  }

  /** Position of the first version segment at or after `from`. */
  function FindSegment(k: string, from: nat): (r: Option<nat>)
    requires from <= |k|
    ensures r.Some? ==> r.value <= |k|
    decreases |k| - from
  {
    if SegmentAt(k, from) then Some(from)
    else if from == |k| then None
    else FindSegment(k, from + 1)
  }

  lemma {:induction false} FindsFirstSegment(k: string, from: nat)
    requires from <= |k|
    ensures var r := FindSegment(k, from);
            && (r.Some? ==> from <= r.value && SegmentAt(k, r.value))
            && (r.Some? ==> forall i :: from <= i < r.value ==> !SegmentAt(k, i))
            && (r.None? ==> forall i :: from <= i ==> !SegmentAt(k, i))
    decreases |k| - from
  {
    if !SegmentAt(k, from) && from < |k| { FindsFirstSegment(k, from + 1); }
  }

  /** The base key a version object belongs to, or the key itself. */
  function BaseKey(k: string): (r: string)
  {
    match FindSegment(k, 0)
    case Some(at) => k[..at]
    case None => k
  }

  /** Base keys are UUIDs, so they hold no slash. */
  predicate SlashFree(s: string) {
    '/' !in s
  }

  predicate HasPrefix(s: string, p: string) {
    |p| <= |s| && s[..|p|] == p
  }

  /** The objects that belong to a base key are the bare one and those under its version segment. */
  lemma OwnedIffPrefix(base: string, k: string)
    requires SlashFree(base)
    ensures BaseKey(k) == base <==> k == base || HasPrefix(k, base + VERSION_SEGMENT)
  {
    var p := base + VERSION_SEGMENT;
    assert p[|base|] == '/' && p[|base| + 1] == 'v' && p[|base| + 2] == '/';
    var at := FindSegment(k, 0);
    FindsFirstSegment(k, 0);
    if HasPrefix(k, p) {
      assert forall i :: 0 <= i < |p| ==> k[i] == k[..|p|][i] == p[i];
      assert SegmentAt(k, |base|);
      assert forall i :: 0 <= i < |base| ==> k[i] == base[i];
      assert at.Some? && at.value == |base|;
      assert k[..|base|] == base;
    }
    if k == base {
      assert at.None?;
    }
    if BaseKey(k) == base && k != base {
      assert at.Some? && at.value == |base|;
      assert k[..|p|] == p;
    }
  }

  /** `BaseKey` inverts `VersionKey`. */
  lemma BaseKeyOfVersionKey(base: string, id: string)
    requires SlashFree(base)
    ensures BaseKey(VersionKey(base, id)) == base
    ensures BaseKey(base) == base
    ensures VersionKey(base, id) != base
  {
    var k := VersionKey(base, id);
    assert k[..|base + VERSION_SEGMENT|] == base + VERSION_SEGMENT;
    OwnedIffPrefix(base, k);
    OwnedIffPrefix(base, base);
  }

  /** Two versions share an object key only when both the vault and the id are the same. */
  lemma VersionKeyInjective(b1: string, id1: string, b2: string, id2: string)
    requires SlashFree(b1) && SlashFree(b2)
    ensures VersionKey(b1, id1) == VersionKey(b2, id2) <==> b1 == b2 && id1 == id2
  {
    if VersionKey(b1, id1) == VersionKey(b2, id2) {
      BaseKeyOfVersionKey(b1, id1);
      BaseKeyOfVersionKey(b2, id2);
      SameBaseInjective(b1, id1, id2);
    }
  }

  lemma SameBaseInjective(base: string, id1: string, id2: string)
    ensures VersionKey(base, id1) == VersionKey(base, id2) ==> id1 == id2
  {
    var n := |base| + 3;
    assert VersionKey(base, id1)[n..] == id1;
    assert VersionKey(base, id2)[n..] == id2;
  }

  /** The ids that validation accepts are short, of plain characters, and hold no slash and no pair of dots. */
  lemma ValidIdsAre(v: string)
    ensures ValidId(v) <==>
      && 1 <= |v| <= 128
      && (forall i :: 0 <= i < |v| ==>
            'a' <= v[i] <= 'z' || 'A' <= v[i] <= 'Z' || '0' <= v[i] <= '9' || v[i] == '.' || v[i] == '-' || v[i] == '_')
      && (forall i :: 0 < i < |v| ==> !(v[i - 1] == '.' && v[i] == '.'))
    ensures ValidId(v) ==> SlashFree(v)
  {
    assert (exists i :: 0 < i < |v| && v[i - 1] == '.' && v[i] == '.') <==> HasDotDot(v) by {
      if HasDotDot(v) {
        var i :| 0 <= i < |v| - 1 && v[i] == '.' && v[i + 1] == '.';
        var j := i + 1;
        assert v[j - 1] == '.' && v[j] == '.';
      }
      if i :| 0 < i < |v| && v[i - 1] == '.' && v[i] == '.' {
        var j := i - 1;
        assert v[j] == '.' && v[j + 1] == '.';
      }
    }
  }
}
