/**
 Which address a request counts against when it came through proxies: the chain of hops is
 walked outwards from the server, and nothing beyond the first undeclared hop is believed.
 */
module ClientIp {
  import opened Results
  import KeyLayout

  datatype Address = V4(bits: nat) | V6(bits: nat)

  /** A range of addresses, given by the number of leading bits its members share with `base`. */
  datatype Net = Net(base: Address, prefix: nat)

  /** What a peer of unknown address counts as. */
  const UNSPECIFIED := V4(0)

  function Width(a: Address): (bits: nat) {
    if a.V4? then 32 else 128
  }

  function PowerOfTwo(n: nat): (p: nat)
    ensures p > 0
  {
    if n == 0 then 1 else 2 * PowerOfTwo(n - 1)
  }

  predicate InNet(net: Net, a: Address) {
    && net.base.V4? == a.V4?
    && net.prefix <= Width(a)
    && var block := PowerOfTwo(Width(a) - net.prefix);
       net.base.bits / block == a.bits / block
  }

  /** A range is the block of addresses from its first to its last, of one family. */
  lemma InNetIffBetween(net: Net, a: Address)
    requires net.prefix <= Width(net.base)
    ensures var block := PowerOfTwo(Width(net.base) - net.prefix);
            var first := net.base.bits - net.base.bits % block;
            InNet(net, a) <==> net.base.V4? == a.V4? && first <= a.bits < first + block
  {
    var block := PowerOfTwo(Width(net.base) - net.prefix);
    SameBlock(net.base.bits, a.bits, block);
  }

  lemma SameBlock(x: nat, y: nat, block: nat)
    requires block > 0
    ensures x / block == y / block <==> x - x % block <= y < x - x % block + block
  {
    BlockStart(x, block);
    BlockStart(y, block);
    if x / block < y / block {
      NextBlock(x / block, y / block, block);
    } else if y / block < x / block {
      NextBlock(y / block, x / block, block);
    }
  }

  lemma BlockStart(x: nat, block: nat)
    requires block > 0
    ensures x - x % block == x / block * block && x / block * block <= x < x / block * block + block
  {
  }

  lemma NextBlock(q: nat, r: nat, block: nat)
    requires q < r
    ensures q * block + block <= r * block
  {
    assert (q + 1) * block <= r * block;
  }

  predicate Trusts(trusted: seq<Net>, a: Address) {
    exists i :: 0 <= i < |trusted| && InNet(trusted[i], a)
  }

  // ---- The walk -----------------------------------------------------------------

  /** How many of the innermost entries are declared proxies, one after the other. */
  function Vouched(entries: seq<Option<Address>>, trusted: seq<Net>): (n: nat) {
    if entries == [] then 0
    else
      var last := entries[|entries| - 1];
      if last.Some? && Trusts(trusted, last.value) then 1 + Vouched(entries[..|entries| - 1], trusted) else 0
  }

  function Resolved(entries: seq<Option<Address>>, peer: Option<Address>, trusted: seq<Net>): (a: Address) {
    var first := if peer.Some? then peer.value else UNSPECIFIED;
    if !Trusts(trusted, first) then first else Outward(entries, first, trusted)
  }

  /** The walk itself, past a trusted hop. */
  function Outward(entries: seq<Option<Address>>, nearest: Address, trusted: seq<Net>): (a: Address) {
    if entries == [] then nearest
    else
      match entries[|entries| - 1]
      case None => nearest
      case Some(a) => if Trusts(trusted, a) then Outward(entries[..|entries| - 1], a, trusted) else a
  }

  lemma {:induction false} VouchedCounts(entries: seq<Option<Address>>, trusted: seq<Net>)
    ensures var n := Vouched(entries, trusted);
            && n <= |entries|
            && (forall i :: |entries| - n <= i < |entries| ==> entries[i].Some? && Trusts(trusted, entries[i].value))
            && (n < |entries| ==>
                  var beyond := entries[|entries| - 1 - n]; beyond.None? || !Trusts(trusted, beyond.value))
  {
    if entries != [] { VouchedCounts(entries[..|entries| - 1], trusted); }
  }

  /** The hop `n` steps out: the peer, then the entries from the innermost. */
  function Hop(entries: seq<Option<Address>>, peer: Address, n: nat): (hop: Option<Address>)
    requires n <= |entries|
  {
    if n == 0 then Some(peer) else entries[|entries| - n]
  }

  /**
   The answer is the first hop outside the declared ranges, if an unreadable one does not
   come before it, and otherwise the last declared hop.
   */
  ghost predicate IsFirstUndeclared(entries: seq<Option<Address>>, peer: Address, trusted: seq<Net>, answer: Address) {
    exists n: nat :: n <= |entries| && AnsweredAt(entries, peer, trusted, answer, n)
  }

  predicate Declared(hop: Option<Address>, trusted: seq<Net>) {
    hop.Some? && Trusts(trusted, hop.value)
  }

  ghost predicate AnsweredAt(
    entries: seq<Option<Address>>, peer: Address, trusted: seq<Net>, answer: Address, n: nat)
    requires n <= |entries|
  {
    && (forall k: nat :: k < n ==> Declared(Hop(entries, peer, k), trusted))
    && Hop(entries, peer, n) == Some(answer)
    && (Declared(Hop(entries, peer, n), trusted) ==> n == |entries| || Hop(entries, peer, n + 1).None?)
  }

  lemma {:induction false} OutwardByCount(entries: seq<Option<Address>>, nearest: Address, trusted: seq<Net>)
    ensures var n := Vouched(entries, trusted);
            && n <= |entries|
            && (n < |entries| && entries[|entries| - 1 - n].Some? ==>
                  Outward(entries, nearest, trusted) == entries[|entries| - 1 - n].value)
            && (n == |entries| || entries[|entries| - 1 - n].None? ==>
                  Some(Outward(entries, nearest, trusted)) == Hop(entries, nearest, n))
    decreases |entries|
  {
    VouchedCounts(entries, trusted);
    if entries != [] {
      var last := entries[|entries| - 1];
      if last.Some? && Trusts(trusted, last.value) {
        OutwardByCount(entries[..|entries| - 1], last.value, trusted);
      }
    }
  }

  lemma ResolvedIsFirstUndeclared(entries: seq<Option<Address>>, peer: Option<Address>, trusted: seq<Net>)
    ensures IsFirstUndeclared(entries, if peer.Some? then peer.value else UNSPECIFIED, trusted,
                              Resolved(entries, peer, trusted))
  {
    var first := if peer.Some? then peer.value else UNSPECIFIED;
    var answer := Resolved(entries, peer, trusted);
    var n := Vouched(entries, trusted);
    VouchedCounts(entries, trusted);
    OutwardByCount(entries, first, trusted);
    if !Trusts(trusted, first) {
      assert AnsweredAt(entries, first, trusted, answer, 0);
    } else if n < |entries| && entries[|entries| - 1 - n].Some? {
      assert AnsweredAt(entries, first, trusted, answer, n + 1);
    } else {
      assert AnsweredAt(entries, first, trusted, answer, n);
    }
  }

  /** No second address fits that description. */
  lemma FirstUndeclaredIsUnique(entries: seq<Option<Address>>, peer: Address, trusted: seq<Net>, a: Address, b: Address)
    requires IsFirstUndeclared(entries, peer, trusted, a) && IsFirstUndeclared(entries, peer, trusted, b)
    ensures a == b
  {
    var n: nat :| n <= |entries| && AnsweredAt(entries, peer, trusted, a, n);
    var m: nat :| m <= |entries| && AnsweredAt(entries, peer, trusted, b, m);
    NotAnsweredTwice(entries, peer, trusted, a, b, n, m);
    NotAnsweredTwice(entries, peer, trusted, b, a, m, n);
  }

  lemma NotAnsweredTwice(
    entries: seq<Option<Address>>, peer: Address, trusted: seq<Net>, a: Address, b: Address, n: nat, m: nat)
    requires n <= |entries| && m <= |entries|
    requires AnsweredAt(entries, peer, trusted, a, n) && AnsweredAt(entries, peer, trusted, b, m)
    ensures n >= m
  {
  }

  // ---- What the client itself writes ----------------------------------------------

  predicate StopsEarly(entries: seq<Option<Address>>, peer: Option<Address>, trusted: seq<Net>) {
    || !Trusts(trusted, if peer.Some? then peer.value else UNSPECIFIED)
    || Vouched(entries, trusted) < |entries|
  }

  lemma {:induction false} OutwardIgnoresBeyond(
    more: seq<Option<Address>>, entries: seq<Option<Address>>, nearest: Address, trusted: seq<Net>)
    ensures Vouched(entries, trusted) < |entries| ==>
              Outward(more + entries, nearest, trusted) == Outward(entries, nearest, trusted)
    ensures Vouched(entries, trusted) == |entries| ==>
              Outward(more + entries, nearest, trusted) == Outward(more, Outward(entries, nearest, trusted), trusted)
    decreases |entries|
  {
    if entries == [] {
      assert more + entries == more;
    } else {
      var all, n := more + entries, |entries| - 1;
      assert all[|all| - 1] == entries[n] && all[..|all| - 1] == more + entries[..n];
      var last := entries[n];
      if last.Some? && Trusts(trusted, last.value) {
        OutwardIgnoresBeyond(more, entries[..n], last.value, trusted);
      }
    }
  }

  /**
   Entries put further out never change the answer exactly when the walk stops before it
   has used up the chain.
   */
  lemma ForgeryIgnoredIff(entries: seq<Option<Address>>, peer: Option<Address>, trusted: seq<Net>)
    ensures (forall more :: Resolved(more + entries, peer, trusted) == Resolved(entries, peer, trusted))
       <==> StopsEarly(entries, peer, trusted)
  {
    var first := if peer.Some? then peer.value else UNSPECIFIED;
    VouchedCounts(entries, trusted);
    if StopsEarly(entries, peer, trusted) {
      forall more ensures Resolved(more + entries, peer, trusted) == Resolved(entries, peer, trusted) {
        OutwardIgnoresBeyond(more, entries, first, trusted);
      }
    } else {
      var answer := Resolved(entries, peer, trusted);
      var other := if answer == V4(1) then V4(2) else V4(1);
      var more := [Some(other)];
      OutwardIgnoresBeyond(more, entries, first, trusted);
      assert more[..0] == [];
      assert Resolved(more + entries, peer, trusted) == other;
    }
  }

  // ---- From the header's text --------------------------------------------------------

  function Split(text: string): (pieces: seq<string>)
    ensures |pieces| >= 1
  {
    if text == "" then [""]
    else
      var rest := Split(text[1..]);
      if text[0] == ',' then [""] + rest else [[text[0]] + rest[0]] + rest[1..]
  }

  /** The entries in order, `None` where one cannot be read; empty ones are dropped. */
  function Readings(pieces: seq<string>, read: string -> Option<Address>): (entries: seq<Option<Address>>) {
    if pieces == [] then []
    else
      var piece := KeyLayout.TrimMatches(pieces[0], KeyLayout.IsWhitespace);
      (if piece == "" then [] else [read(piece)]) + Readings(pieces[1..], read)
  }

  /** All the lines of the header; a line that is not text is passed over. */
  function Forwarded(lines: seq<Option<string>>, read: string -> Option<Address>): (entries: seq<Option<Address>>) {
    if lines == [] then []
    else (if lines[0].Some? then Readings(Split(lines[0].value), read) else []) + Forwarded(lines[1..], read)
  }

  lemma {:induction false} SplitOfJoin(a: string, b: string)
    ensures Split(a + "," + b) == Split(a) + Split(b)
  {
    if a == "" {
      assert a + "," + b == "," + b && ("," + b)[1..] == b;
    } else {
      assert (a + "," + b)[1..] == a[1..] + "," + b;
      SplitOfJoin(a[1..], b);
    }
  }

  lemma {:induction false} ReadingsOfConcat(a: seq<string>, b: seq<string>, read: string -> Option<Address>)
    ensures Readings(a + b, read) == Readings(a, read) + Readings(b, read)
  {
    if a == [] {
      assert a + b == b;
    } else {
      assert (a + b)[1..] == a[1..] + b;
      ReadingsOfConcat(a[1..], b, read);
    }
  }

  lemma {:induction false} ForwardedOfConcat(
      a: seq<Option<string>>, b: seq<Option<string>>, read: string -> Option<Address>)
    ensures Forwarded(a + b, read) == Forwarded(a, read) + Forwarded(b, read)
  {
    if a == [] {
      assert a + b == b;
    } else {
      assert (a + b)[1..] == a[1..] + b;
      ForwardedOfConcat(a[1..], b, read);
    }
  }

  lemma FirstLine(text: string, rest: seq<Option<string>>, read: string -> Option<Address>)
    ensures Forwarded([Some(text)] + rest, read) == Readings(Split(text), read) + Forwarded(rest, read)
  {
    assert ([Some(text)] + rest)[1..] == rest;
  }

  lemma ForgedReadings(
    forgedLines: seq<Option<string>>, forged: string, honest: string, rest: seq<Option<string>>,
    read: string -> Option<Address>)
    ensures Forwarded(forgedLines + ([Some(forged + "," + honest)] + rest), read)
         == Forwarded(forgedLines, read) + Readings(Split(forged), read) + Forwarded([Some(honest)] + rest, read)
  {
    var line := forged + "," + honest;
    ForwardedOfConcat(forgedLines, [Some(line)] + rest, read);
    FirstLine(line, rest, read);
    FirstLine(honest, rest, read);
    assert Readings(Split(line), read) == Readings(Split(forged), read) + Readings(Split(honest), read) by {
      SplitOfJoin(forged, honest);
      ReadingsOfConcat(Split(forged), Split(honest), read);
    }
    Regrouped(Forwarded(forgedLines, read), Readings(Split(forged), read), Readings(Split(honest), read),
              Forwarded(rest, read));
  }

  lemma Regrouped<T>(a: seq<T>, b: seq<T>, c: seq<T>, d: seq<T>)
    ensures a + ((b + c) + d) == a + b + (c + d)
  {
  }

  /**
   Whatever lines a client sends first and whatever text it puts before the first line the
   proxies wrote, a walk that stops within what the proxies wrote gives the same answer.
   */
  lemma ForgedTextIgnored(
    forgedLines: seq<Option<string>>, forged: string, honest: string, rest: seq<Option<string>>,
    read: string -> Option<Address>, peer: Option<Address>, trusted: seq<Net>)
    requires StopsEarly(Forwarded([Some(honest)] + rest, read), peer, trusted)
    ensures Resolved(Forwarded(forgedLines + ([Some(forged + "," + honest)] + rest), read), peer, trusted)
         == Resolved(Forwarded([Some(honest)] + rest, read), peer, trusted)
  {
    ForgedReadings(forgedLines, forged, honest, rest, read);
    ForgeryIgnoredIff(Forwarded([Some(honest)] + rest, read), peer, trusted);
  }

  // ---- What an entry of the header reads as -------------------------------------------

  predicate Blank(s: string) {
    forall i :: 0 <= i < |s| ==> KeyLayout.IsWhitespace(s[i])
  }

  /** The text of one entry: no comma, and no whitespace at either end. */
  predicate EntryText(core: string) {
    && core != "" && ',' !in core
    && !KeyLayout.IsWhitespace(core[0]) && !KeyLayout.IsWhitespace(core[|core| - 1])
  }

  lemma {:induction false} SplitWithoutComma(text: string)
    requires ',' !in text
    ensures Split(text) == [text]
  {
    if text != "" {
      SplitWithoutComma(text[1..]);
      assert text == [text[0]] + text[1..];
    }
  }

  lemma SplitEntry(pre: string, core: string, post: string)
    requires Blank(pre) && Blank(post) && ',' !in core
    ensures Split(pre + core + post) == [pre + core + post]
  {
    var text := pre + core + post;
    forall i | 0 <= i < |text| ensures text[i] != ',' {
      if i < |pre| { assert text[i] == pre[i]; }
      else if i < |pre| + |core| { assert text[i] == core[i - |pre|]; }
      else { assert text[i] == post[i - |pre| - |core|]; }
    }
    SplitWithoutComma(text);
  }

  /** One entry, with any whitespace around it, is read as the text it is. */
  lemma EntryIsRead(pre: string, core: string, post: string, read: string -> Option<Address>)
    requires Blank(pre) && Blank(post) && EntryText(core)
    ensures Forwarded([Some(pre + core + post)], read) == [read(core)]
  {
    SplitEntry(pre, core, post);
    KeyLayout.TrimsTo(pre, core, post, KeyLayout.IsWhitespace);
    FirstLine(pre + core + post, [], read);
    assert [Some(pre + core + post)] + [] == [Some(pre + core + post)];
    assert [pre + core + post][1..] == [];
  }

  /** A line of whitespace has no entry, and neither has one that is not text. */
  lemma BlankLineIsSkipped(line: Option<string>, read: string -> Option<Address>)
    requires line.Some? ==> Blank(line.value)
    ensures Forwarded([line], read) == []
  {
    assert [line][1..] == [];
    if line.Some? {
      var text := line.value;
      assert text + "" + "" == text;
      SplitEntry(text, "", "");
      KeyLayout.TrimsTo(text, "", "", KeyLayout.IsWhitespace);
      assert Split(text) == [text] && [text][1..] == [] && Readings([text][1..], read) == [];
      assert Readings(Split(text), read) == [];
      OneLine(text, read);
    }
  }

  /** A comma ends an entry. */
  lemma CommaSeparates(a: string, b: string, read: string -> Option<Address>)
    ensures Forwarded([Some(a + "," + b)], read) == Forwarded([Some(a)], read) + Forwarded([Some(b)], read)
  {
    OneLine(a + "," + b, read);
    OneLine(a, read);
    OneLine(b, read);
    SplitOfJoin(a, b);
    ReadingsOfConcat(Split(a), Split(b), read);
  }

  lemma OneLine(text: string, read: string -> Option<Address>)
    ensures Forwarded([Some(text)], read) == Readings(Split(text), read)
  {
    assert [Some(text)][1..] == [];
  }

  /** The lines of the header are read one after the other. */
  lemma LinesAreReadInOrder(first: Option<string>, rest: seq<Option<string>>, read: string -> Option<Address>)
    ensures Forwarded([first] + rest, read) == Forwarded([first], read) + Forwarded(rest, read)
  {
    ForwardedOfConcat([first], rest, read);
  }

  /**
   What the innermost proxy wrote: behind a declared peer, an undeclared address at the end of
   the last line is the answer, whatever stands before it and however it is spaced.
   */
  lemma LastEntryIsTheClient(
    lines: seq<Option<string>>, text: string, pre: string, core: string, post: string, a: Address,
    read: string -> Option<Address>, peer: Address, trusted: seq<Net>)
    requires Blank(pre) && Blank(post) && EntryText(core) && read(core) == Some(a)
    requires Trusts(trusted, peer) && !Trusts(trusted, a)
    ensures Resolved(Forwarded(lines + [Some(text + "," + (pre + core + post))], read), Some(peer), trusted) == a
    ensures Resolved(Forwarded(lines + [Some(pre + core + post)], read), Some(peer), trusted) == a
  {
    ForwardedOfConcat(lines, [Some(text + "," + (pre + core + post))], read);
    ForwardedOfConcat(lines, [Some(pre + core + post)], read);
    CommaSeparates(text, pre + core + post, read);
    EntryIsRead(pre, core, post, read);
    EndsTheWalk(Forwarded(lines, read) + Forwarded([Some(text)], read), a, peer, trusted);
    EndsTheWalk(Forwarded(lines, read), a, peer, trusted);
    Grouped(Forwarded(lines, read), Forwarded([Some(text)], read), [Some(a)]);
  }

  lemma EndsTheWalk(before: seq<Option<Address>>, a: Address, peer: Address, trusted: seq<Net>)
    requires Trusts(trusted, peer) && !Trusts(trusted, a)
    ensures Resolved(before + [Some(a)], Some(peer), trusted) == a
  {
  }

  lemma Grouped<T>(a: seq<T>, b: seq<T>, c: seq<T>)
    ensures a + (b + c) == (a + b) + c
  {
  }

  method Contains(trusted: seq<Net>, a: Address) returns (r: bool)
    ensures r == Trusts(trusted, a)
  {
    for i := 0 to |trusted|
      invariant forall j :: 0 <= j < i ==> !InNet(trusted[j], a)
    {
      if InNet(trusted[i], a) { return true; }
    }
    return false;
  }

  method Resolve(lines: seq<Option<string>>, read: string -> Option<Address>, peer: Option<Address>, trusted: seq<Net>)
    returns (answer: Address)
    ensures answer == Resolved(Forwarded(lines, read), peer, trusted)
    ensures IsFirstUndeclared(Forwarded(lines, read), if peer.Some? then peer.value else UNSPECIFIED, trusted, answer)
  {
    var first := if peer.Some? then peer.value else UNSPECIFIED;
    var entries := Forwarded(lines, read);
    ResolvedIsFirstUndeclared(entries, peer, trusted);
    var known := Contains(trusted, first);
    if |trusted| == 0 || !known { return first; }
    var nearest := first;
    assert entries[..|entries|] == entries;
    var i: nat := |entries|;
    while i > 0
      invariant i <= |entries| && Outward(entries[..i], nearest, trusted) == Resolved(entries, peer, trusted)
    {
      i := i - 1;
      assert entries[..i + 1][..i] == entries[..i];
      if entries[i].None? { return nearest; }
      var declared := Contains(trusted, entries[i].value);
      if !declared { return entries[i].value; }
      nearest := entries[i].value;
    }
    return nearest;
  }
}
