/**
 One entry of the desktop's vault index, the fields its authentication code covers, and
 how the code is checked. The keyed hash is an arbitrary function of the text it is fed.
 */
module EntryMac {
  import opened Results

  datatype Meta = Meta(
    id: string,
    title: string,
    classical: string,
    pq: string,
    dek: string,
    color: Option<string>,
    note: Option<string>,
    sharing: string,
    encryption: string,
    maxVersions: nat,
    created: string,
    updated: string,
    mac: Option<string>)

  type Mac = string -> string

  const BAR: string := "|"

  function Input(m: Meta): (text: string) {
    m.id + BAR + (m.title + BAR + (m.classical + BAR + (m.pq + BAR + m.dek)))
  }

  predicate SameCovered(a: Meta, b: Meta) {
    a.id == b.id && a.title == b.title && a.classical == b.classical && a.pq == b.pq && a.dek == b.dek
  }

  function Stamp(mac: Mac, m: Meta): (m': Meta) {
    m.(color := None, mac := Some(mac(Input(m))))
  }

  datatype Integrity = Ok | MissingMac | Tampered | NotFound

  function CheckEntry(mac: Mac, m: Meta): (r: Integrity) {
    if m.mac.None? then MissingMac
    else if m.mac.value == mac(Input(m)) then Integrity.Ok
    else Tampered
  }

  // ---- When the covered text determines the fields ------------------------------

  predicate Plain(s: string) {
    '|' !in s
  }

  predicate PlainFields(m: Meta) {
    Plain(m.id) && Plain(m.title) && Plain(m.classical) && Plain(m.pq) && Plain(m.dek)
  }

  function Bars(s: string): (n: nat) {
    if s == "" then 0 else (if s[0] == '|' then 1 else 0) + Bars(s[1..])
  }

  lemma {:induction false} BarsOfConcat(s: string, t: string)
    ensures Bars(s + t) == Bars(s) + Bars(t)
  {
    if s == "" {
      assert s + t == t;
    } else {
      assert (s + t)[1..] == s[1..] + t;
      BarsOfConcat(s[1..], t);
    }
  }

  lemma {:induction false} PlainIffNoBars(s: string)
    ensures Plain(s) <==> Bars(s) == 0
  {
    if s != "" {
      PlainIffNoBars(s[1..]);
      assert s == [s[0]] + s[1..];
    }
  }

  lemma BarsOfField(field: string, rest: string)
    ensures Bars(field + BAR + rest) == Bars(field) + 1 + Bars(rest)
  {
    BarsOfConcat(field + BAR, rest);
    BarsOfConcat(field, BAR);
    assert Bars(BAR) == 1;
  }

  lemma BarsOfInput(m: Meta)
    ensures Bars(Input(m)) == 4 + Bars(m.id) + Bars(m.title) + Bars(m.classical) + Bars(m.pq) + Bars(m.dek)
  {
    BarsOfField(m.id, m.title + BAR + (m.classical + BAR + (m.pq + BAR + m.dek)));
    BarsOfField(m.title, m.classical + BAR + (m.pq + BAR + m.dek));
    BarsOfField(m.classical, m.pq + BAR + m.dek);
    BarsOfField(m.pq, m.dek);
  }

  lemma PlainFieldsIff(m: Meta)
    ensures PlainFields(m) <==> Bars(Input(m)) == 4
  {
    BarsOfInput(m);
    PlainIffNoBars(m.id);
    PlainIffNoBars(m.title);
    PlainIffNoBars(m.classical);
    PlainIffNoBars(m.pq);
    PlainIffNoBars(m.dek);
  }

  lemma FirstBar(a: string, x: string)
    requires Plain(a)
    ensures var s := a + BAR + x;
            && |a| < |s| && s[|a|] == '|' && s[..|a|] == a && s[|a| + 1..] == x
            && forall i :: 0 <= i < |a| ==> s[i] != '|'
  {
    var s := a + BAR + x;
    forall i | 0 <= i < |a| ensures s[i] != '|' {
      assert s[i] == a[i];
    }
  }

  /** A text with a plain field before a bar can be taken apart there in one way only. */
  lemma SplitsOnce(a: string, x: string, b: string, y: string)
    requires Plain(a) && Plain(b) && a + BAR + x == b + BAR + y
    ensures a == b && x == y
  {
    FirstBar(a, x);
    FirstBar(b, y);
  }

  lemma PlainInputsDetermine(a: Meta, b: Meta)
    requires PlainFields(a) && PlainFields(b) && Input(a) == Input(b)
    ensures SameCovered(a, b)
  {
    SplitsOnce(a.id, a.title + BAR + (a.classical + BAR + (a.pq + BAR + a.dek)),
               b.id, b.title + BAR + (b.classical + BAR + (b.pq + BAR + b.dek)));
    SplitsOnce(a.title, a.classical + BAR + (a.pq + BAR + a.dek), b.title, b.classical + BAR + (b.pq + BAR + b.dek));
    SplitsOnce(a.classical, a.pq + BAR + a.dek, b.classical, b.pq + BAR + b.dek);
    SplitsOnce(a.pq, a.dek, b.pq, b.dek);
  }

  /** Moving a bar's neighbour across the boundary leaves the text alone. */
  lemma Regroup(a: string, b: string, rest: string)
    ensures a + BAR + (b + BAR + rest) == (a + BAR + b) + BAR + rest
  {
  }

  function BarAt(s: string): (p: nat)
    requires !Plain(s)
    ensures p < |s| && s[p] == '|'
  {
    if s[0] == '|' then 0 else 1 + BarAt(s[1..])
  }

  /** Other fields with the same text, for an entry that has a bar in one of them. */
  function Collision(m: Meta): (other: Meta)
    requires !PlainFields(m)
  {
    if !Plain(m.id) then
      var p := BarAt(m.id); m.(id := m.id[..p], title := m.id[p + 1..] + BAR + m.title)
    else if !Plain(m.title) then
      var p := BarAt(m.title); m.(title := m.title[..p], classical := m.title[p + 1..] + BAR + m.classical)
    else if !Plain(m.classical) then
      var p := BarAt(m.classical); m.(classical := m.classical[..p], pq := m.classical[p + 1..] + BAR + m.pq)
    else if !Plain(m.pq) then
      var p := BarAt(m.pq); m.(pq := m.pq[..p], dek := m.pq[p + 1..] + BAR + m.dek)
    else
      var p := BarAt(m.dek); m.(pq := m.pq + BAR + m.dek[..p], dek := m.dek[p + 1..])
  }

  lemma AtBar(s: string)
    requires !Plain(s)
    ensures var p := BarAt(s); s == s[..p] + BAR + s[p + 1..] && s[..p] != s
  {
  }

  lemma CollisionCollides(m: Meta)
    requires !PlainFields(m)
    ensures Input(Collision(m)) == Input(m) && !SameCovered(Collision(m), m)
  {
    var c := m.classical + BAR + (m.pq + BAR + m.dek);
    var q := m.pq + BAR + m.dek;
    if !Plain(m.id) {
      AtBar(m.id);
      var p := BarAt(m.id);
      Regroup(m.id[..p], m.id[p + 1..], m.title + BAR + c);
      Regroup(m.id[p + 1..], m.title, c);
    } else if !Plain(m.title) {
      AtBar(m.title);
      var p := BarAt(m.title);
      Regroup(m.title[..p], m.title[p + 1..], c);
      Regroup(m.title[p + 1..], m.classical, q);
    } else if !Plain(m.classical) {
      AtBar(m.classical);
      var p := BarAt(m.classical);
      Regroup(m.classical[..p], m.classical[p + 1..], q);
      Regroup(m.classical[p + 1..], m.pq, m.dek);
    } else if !Plain(m.pq) {
      AtBar(m.pq);
      var p := BarAt(m.pq);
      Regroup(m.pq[..p], m.pq[p + 1..], m.dek);
    } else {
      AtBar(m.dek);
      var p := BarAt(m.dek);
      Regroup(m.pq, m.dek[..p], m.dek[p + 1..]);
      assert |m.pq + BAR + m.dek[..p]| > |m.pq|;
    }
  }

  /** The covered text stands for one set of fields exactly when none of them contains a bar. */
  lemma InputDeterminesIffPlain(m: Meta)
    ensures (forall other: Meta :: Input(other) == Input(m) ==> SameCovered(other, m)) <==> PlainFields(m)
  {
    if PlainFields(m) {
      forall other: Meta | Input(other) == Input(m) ensures SameCovered(other, m) {
        PlainFieldsIff(m);
        PlainFieldsIff(other);
        PlainInputsDetermine(other, m);
      }
    } else {
      CollisionCollides(m);
    }
  }

  ghost predicate CollisionFree(mac: Mac) {
    forall s, t :: mac(s) == mac(t) ==> s == t
  }

  /**
   Of the edits that keep the stored code, a stamped entry without bars admits exactly those
   that leave the five covered fields alone; every other edit is reported.
   */
  lemma EditReportedIff(mac: Mac, m: Meta, edited: Meta)
    requires CollisionFree(mac) && PlainFields(m)
    requires CheckEntry(mac, m) == Integrity.Ok && edited.mac == m.mac
    ensures CheckEntry(mac, edited) == (if SameCovered(edited, m) then Integrity.Ok else Tampered)
  {
    InputDeterminesIffPlain(m);
  }
}
