/** The size-shedding loop of the normalizer
    (backend/internal/normalization/normalizer.go): message tail, then the raw
    message, then fields in key order, until the entry fits. */
module Normalizer {
  import opened Common

  type Key = Bytes
  type Fields = map<Key, Bytes>

  const TRUNCATED: Key := [116, 114, 117, 110, 99, 97, 116, 101, 100]
  const YES: Bytes := [116, 114, 117, 101]
  const OVERHEAD := 256
  const SLACK := 1024

  datatype Limits = Limits(maxMessage: nat, maxEntry: nat)

  const DEFAULT_LIMITS := Limits(64 * 1024, 256 * 1024)

  /** fields is None for a nil map. */
  datatype Entry = Entry(message: Bytes, raw: Bytes, host: Bytes, fields: Option<Fields>) {
    function Map(): Fields {
      if fields.Some? then fields.value else map[]
    }

    function WithFields(f: Fields): Entry {
      if fields.Some? then this.(fields := Some(f)) else this
    }

    /** Writing the truncation mark; a nil map cannot be written. */
    function Marked(): Entry {
      this.(fields := Some(Map()[TRUNCATED := YES]))
    }
  }

  // ----- key order and sizes -----

  /** The order of sort.Strings. */
  predicate Less(a: Key, b: Key) {
    b != [] && (a == [] || a[0] < b[0] || (a[0] == b[0] && Less(a[1..], b[1..])))
  }

  lemma {:induction false} LessTotal(a: Key, b: Key)
    ensures Less(a, b) || a == b || Less(b, a)
    ensures !(Less(a, b) && Less(b, a)) && !Less(a, a)
  {
    if a == [] {
    } else {
      if b != [] {
        LessTotal(a[1..], b[1..]);
        assert a[1..] == b[1..] && a[0] == b[0] ==> a == b by {
          assert a == [a[0]] + a[1..] && b == [b[0]] + b[1..];
        }
      }
      LessTotal(a[1..], a[1..]);
    }
  }

  lemma {:induction false} LessTrans(a: Key, b: Key, c: Key)
    requires Less(a, b) && Less(b, c)
    ensures Less(a, c)
  {
    if a == [] || a[0] < b[0] || b[0] < c[0] {
    } else {
      LessTrans(a[1..], b[1..], c[1..]);
    }
  }

  ghost function Weight(f: Fields): nat
    decreases |f|
  {
    if f == map[] then 0
    else
      var k :| k in f;
      KeysLess(f, k);
      |k| + |f[k]| + Weight(f - {k})
  }

  lemma NoWeight()
    ensures Weight(map[]) == 0
  {
  }

  lemma KeysLess(f: Fields, k: Key)
    requires k in f
    ensures |f - {k}| < |f|
  {
    assert (f - {k}).Keys == f.Keys - {k};
  }

  /** The weight does not depend on the order of summation. */
  lemma {:induction false} WeightWithout(f: Fields, k: Key)
    requires k in f
    ensures Weight(f) == |k| + |f[k]| + Weight(f - {k})
    decreases |f|
  {
    var x: Key :| x in f && Weight(f) == |x| + |f[x]| + Weight(f - {x});
    if x != k {
      KeysLess(f, x);
      WeightWithout(f - {x}, k);
      KeysLess(f, k);
      WeightWithout(f - {k}, x);
      assert f - {x} - {k} == f - {k} - {x};
    }
  }

  lemma {:induction false} WeightMonotone(f: Fields, g: Fields)
    requires f.Keys <= g.Keys && forall k :: k in f ==> f[k] == g[k]
    ensures Weight(f) <= Weight(g)
    decreases |f|
  {
    if f == map[] {
    } else {
      var k :| k in f;
      WeightWithout(f, k);
      WeightWithout(g, k);
      KeysLess(f, k);
      WeightMonotone(f - {k}, g - {k});
    }
  }

  /** entrySize. */
  ghost function Size(e: Entry): nat {
    |e.message| + |e.raw| + |e.host| + OVERHEAD + Weight(e.Map())
  }

  /** ks lists the names of f, each once. */
  predicate Lists(ks: seq<Key>, f: Fields) {
    && (forall i, j :: 0 <= i < j < |ks| ==> ks[i] != ks[j])
    && (forall i :: 0 <= i < |ks| ==> ks[i] in f)
    && (forall k :: k in f ==> k in ks)
  }

  /** The bytes of the listed fields, names and values. */
  function FieldBytes(ks: seq<Key>, f: Fields): nat
    requires forall i :: 0 <= i < |ks| ==> ks[i] in f
  {
    if ks == [] then 0 else |ks[0]| + |f[ks[0]]| + FieldBytes(ks[1..], f)
  }

  lemma {:induction false} SameBytes(ks: seq<Key>, f: Fields, g: Fields)
    requires forall i :: 0 <= i < |ks| ==> ks[i] in f && ks[i] in g && f[ks[i]] == g[ks[i]]
    ensures FieldBytes(ks, f) == FieldBytes(ks, g)
  {
    if ks == [] {
    } else {
      SameBytes(ks[1..], f, g);
    }
  }

  lemma ListsTail(ks: seq<Key>, f: Fields)
    requires Lists(ks, f) && ks != []
    ensures ks[0] in f && Lists(ks[1..], f - {ks[0]})
  {
    assert ks == [ks[0]] + ks[1..];
  }

  lemma ListsNone(f: Fields)
    requires Lists([], f)
    ensures f == map[]
  {
    assert f.Keys == {};
  }

  lemma {:induction false} WeightIs(ks: seq<Key>, f: Fields)
    requires Lists(ks, f)
    ensures Weight(f) == FieldBytes(ks, f)
  {
    if ks == [] {
      ListsNone(f);
    } else {
      ListsTail(ks, f);
      WeightWithout(f, ks[0]);
      WeightIs(ks[1..], f - {ks[0]});
      SameBytes(ks[1..], f, f - {ks[0]});
      hide Weight;
    }
  }

  /** What an entry counts: message, raw text, host, 256 bytes, and the names and values of
      all its fields, in whatever order they are listed. */
  lemma SizeIs(e: Entry, ks: seq<Key>)
    requires Lists(ks, e.Map())
    ensures Size(e) == |e.message| + |e.raw| + |e.host| + 256 + FieldBytes(ks, e.Map())
  {
    WeightIs(ks, e.Map());
  }

  /** Keys in byte order: one is a proper front of the other, or smaller where they first
      differ. */
  lemma {:induction false} LessIs(a: Key, b: Key)
    ensures Less(a, b) <==>
            exists n :: 0 <= n <= |a| && n < |b| && a[..n] == b[..n] && (n == |a| || a[n] < b[n])
  {
    if b == [] {
    } else if a == [] || a[0] != b[0] {
      assert a[..0] == b[..0];
      forall n | 0 < n <= |a| && n < |b|
        ensures a[..n] != b[..n]
      {
        assert a[..n][0] == a[0] && b[..n][0] == b[0];
      }
    } else {
      LessIs(a[1..], b[1..]);
      FrontsAgree(a, b);
    }
  }

  lemma FrontsAgree(a: Key, b: Key)
    requires a != [] && b != [] && a[0] == b[0]
    ensures (exists n :: 0 <= n <= |a| && n < |b| && a[..n] == b[..n] && (n == |a| || a[n] < b[n])) <==>
            (exists n :: 0 <= n <= |a[1..]| && n < |b[1..]| && a[1..][..n] == b[1..][..n]
                         && (n == |a[1..]| || a[1..][n] < b[1..][n]))
  {
    var x, y := a[1..], b[1..];
    forall n | 0 <= n <= |x| && n < |y|
      ensures a[..n + 1] == b[..n + 1] <==> x[..n] == y[..n]
    {
      assert a[..n + 1] == [a[0]] + x[..n] && b[..n + 1] == [b[0]] + y[..n];
      assert a[..n + 1][1..] == x[..n] && b[..n + 1][1..] == y[..n];
    }
    if n :| 0 <= n <= |x| && n < |y| && x[..n] == y[..n] && (n == |x| || x[n] < y[n]) {
      assert a[..n + 1] == b[..n + 1] && (n + 1 == |a| || a[n + 1] < b[n + 1]);
    }
    if n :| 0 <= n <= |a| && n < |b| && a[..n] == b[..n] && (n == |a| || a[n] < b[n]) {
      assert n > 0;
      assert x[..n - 1] == y[..n - 1] && (n - 1 == |x| || x[n - 1] < y[n - 1]);
    }
  }

  // ----- what enforceSize comes to -----

  function Clip(b: Bytes, n: nat): Bytes {
    if |b| > n then b[..n] else b
  }

  function Clipped(n: Limits, e: Entry): Entry {
    if |e.message| > n.maxMessage then e.(message := Clip(e.message, n.maxMessage)).Marked() else e
  }

  function Budget(n: Limits, e: Entry): nat {
    if n.maxEntry >= |e.message| + SLACK then n.maxEntry - |e.message| - SLACK else 0
  }

  /** The entry once the raw message has been dealt with: kept, cut to its budget, or
      given up. */
  ghost function RawStage(n: Limits, e0: Entry): Entry {
    var e := Clipped(n, e0);
    if Size(e) <= n.maxEntry then e
    else if |e.raw| > Budget(n, e) then
      var cut := e.(raw := e.raw[..Budget(n, e)]).Marked();
      if Size(cut) <= n.maxEntry then cut else cut.(raw := [])
    else e.(raw := [])
  }

  /** The raw message must be cut while there is no field map to mark it in. */
  ghost predicate Panics(n: Limits, e: Entry) {
    && e.fields.None? && |e.message| <= n.maxMessage
    && Size(e) > n.maxEntry && |e.raw| > Budget(n, e)
  }

  function Above(f: Fields, k: Key): Fields {
    map x | x in f && !Less(x, k) :: f[x]
  }

  /** gone are fields of s that had to go: each is below every survivor, and with it and
      the fields above it the entry does not fit. */
  ghost predicate Shed(n: Limits, s: Entry, gone: set<Key>) {
    && gone <= s.Map().Keys
    && (forall k, x :: k in gone && x in s.Map() && x !in gone ==> Less(k, x))
    && (forall k :: k in gone ==> Size(s.WithFields(Above(s.Map(), k))) > n.maxEntry)
    && (gone != {} ==> s.raw == [])
  }

  /** e is what enforceSize makes of e0. */
  ghost predicate Enforced(n: Limits, e0: Entry, e: Entry) {
    var s := RawStage(n, e0);
    exists gone :: Shed(n, s, gone) && EndsAs(n, s, gone, e)
  }

  ghost predicate EndsAs(n: Limits, s: Entry, gone: set<Key>, e: Entry) {
    var left := s.WithFields(s.Map() - gone);
    if Size(left) <= n.maxEntry then e == left
    else left.raw == [] && left.Map() == map[] && e == left.(message := Clip(left.message, n.maxEntry))
  }

  // ----- stages of the loop -----

  ghost function Cut(n: Limits, e0: Entry): Entry {
    var e := Clipped(n, e0);
    if |e.raw| > Budget(n, e) then e.(raw := e.raw[..Budget(n, e)]).Marked() else e
  }

  ghost predicate Shedding(n: Limits, e0: Entry, e: Entry, gone: set<Key>) {
    var s := RawStage(n, e0);
    && Size(Clipped(n, e0)) > n.maxEntry && s.raw == [] && Shed(n, s, gone)
    && e == s.WithFields(s.Map() - gone)
  }

  ghost predicate Stage(n: Limits, e0: Entry, e: Entry, gone: set<Key>) {
    || e == Clipped(n, e0)
    || (e == Cut(n, e0) && Size(Clipped(n, e0)) > n.maxEntry && |Clipped(n, e0).raw| > Budget(n, Clipped(n, e0)))
    || Shedding(n, e0, e, gone)
  }

  lemma NoneGone(s: Entry)
    ensures s.WithFields(s.Map() - {}) == s
  {
    assert s.Map() - {} == s.Map();
  }

  lemma ShedNone(n: Limits, s: Entry)
    ensures Shed(n, s, {})
  {
  }

  lemma StageFits(n: Limits, e0: Entry, e: Entry, gone: set<Key>)
    requires Stage(n, e0, e, gone) && Size(e) <= n.maxEntry
    ensures Enforced(n, e0, e)
  {
    hide Size, Clip, Budget, Above;
    var s := RawStage(n, e0);
    NoneGone(s);
    if Shedding(n, e0, e, gone) {
      assert Shed(n, s, gone) && EndsAs(n, s, gone, e);
    } else {
      ShedNone(n, s);
      assert s == e;
      assert EndsAs(n, s, {}, e);
    }
  }

  lemma CutStep(n: Limits, e0: Entry, e: Entry, gone: set<Key>)
    requires Stage(n, e0, e, gone) && Size(e) > n.maxEntry && |e.raw| > Budget(n, e)
    ensures e == Clipped(n, e0) && (e.fields.None? ==> Panics(n, e0))
    ensures Stage(n, e0, e.(raw := e.raw[..Budget(n, e)]).Marked(), gone)
  {
    hide Size;
  }

  lemma GiveUpStep(n: Limits, e0: Entry, e: Entry, gone: set<Key>)
    requires Stage(n, e0, e, gone) && Size(e) > n.maxEntry && |e.raw| <= Budget(n, e) && !Shedding(n, e0, e, gone)
    ensures Shedding(n, e0, e.(raw := []), {})
  {
    hide Size, Shed, Clipped;
    var s := RawStage(n, e0);
    ShedNone(n, s);
    NoneGone(s);
  }

  lemma ShedEnds(n: Limits, e0: Entry, e: Entry, gone: set<Key>)
    requires Shedding(n, e0, e, gone) && Size(e) > n.maxEntry && e.Map() == map[]
    ensures Enforced(n, e0, e.(message := Clip(e.message, n.maxEntry)))
  {
    hide Size, RawStage, Clipped, Clip, Shed;
    assert EndsAs(n, RawStage(n, e0), gone, e.(message := Clip(e.message, n.maxEntry)));
  }

  lemma ShedStep(n: Limits, e0: Entry, e: Entry, gone: set<Key>, k: Key)
    requires Shedding(n, e0, e, gone) && Size(e) > n.maxEntry
    requires k in e.Map() && forall x :: x in e.Map() && x != k ==> Less(k, x)
    ensures Shedding(n, e0, e.WithFields(e.Map() - {k}), gone + {k})
  {
    hide Size, RawStage, Clipped, Less;
    var s := RawStage(n, e0);
    var f := s.Map();
    assert e.Map() == f - gone;
    forall x | x in f
      ensures x !in gone <==> !Less(x, k)
    {
      LessTotal(k, x);
    }
    assert Above(f, k) == f - gone;
    assert f - (gone + {k}) == f - gone - {k};
  }

  lemma StageStart(n: Limits, e0: Entry)
    ensures Stage(n, e0, Clipped(n, e0), {})
  {
  }

  lemma StageSheds(n: Limits, e0: Entry, e: Entry, gone: set<Key>)
    requires Shedding(n, e0, e, gone)
    ensures Stage(n, e0, e, gone)
  {
  }

  /** While shedding fields there is no raw message. */
  lemma RawStays(n: Limits, e0: Entry, e: Entry, gone: set<Key>)
    ensures Shedding(n, e0, e, gone) ==> e.raw == []
  {
  }

  lemma NowShedding(n: Limits, e0: Entry, e: Entry, gone: set<Key>) returns (now: set<Key>)
    requires Stage(n, e0, e, gone) && Size(e) > n.maxEntry && e.raw == []
    ensures Shedding(n, e0, e, now)
  {
    now := gone;
    if !Shedding(n, e0, e, gone) {
      GiveUpStep(n, e0, e, gone);
      now := {};
    }
  }

  // ----- the code -----

  class LogEntry {
    var message: Bytes
    var rawMessage: Bytes
    var hostname: Bytes
    var fields: Option<Fields>

    function View(): Entry
      reads this
    {
      Entry(message, rawMessage, hostname, fields)
    }

    /** entrySize: the loop over the fields, in any order. */
    method EntrySize() returns (size: nat)
      ensures size == Size(View())
      ensures forall ks :: Lists(ks, View().Map()) ==>
                size == |message| + |rawMessage| + |hostname| + 256 + FieldBytes(ks, View().Map())
    {
      hide Weight, FieldBytes;
      size := |message| + |rawMessage| + |hostname| + OVERHEAD;
      ghost var base: nat := size;
      var todo: Fields := if fields.Some? then fields.value else map[];
      NoWeight();
      while todo != map[]
        invariant size + Weight(todo) == base + Weight(View().Map())
        decreases |todo|
      {
        var k :| k in todo;
        WeightWithout(todo, k);
        KeysLess(todo, k);
        size := size + |k| + |todo[k]|;
        todo := todo - {k};
      }
      forall ks | Lists(ks, View().Map())
        ensures size == base + FieldBytes(ks, View().Map())
      {
        WeightIs(ks, View().Map());
      }
    }

    /** The first key in sorted order. */
    method FirstKey() returns (k: Key)
      requires fields.Some? && fields.value != map[]
      ensures k in fields.value && forall x :: x in fields.value && x != k ==> Less(k, x)
    {
      var todo := fields.value.Keys;
      k :| k in todo;
      todo := todo - {k};
      while todo != {}
        invariant todo <= fields.value.Keys && k in fields.value
        invariant forall x :: x in fields.value && x !in todo && x != k ==> Less(k, x)
        decreases |todo|
      {
        var x :| x in todo;
        LessTotal(x, k);
        if Less(x, k) {
          forall y | y in fields.value && y !in todo && y != k
            ensures Less(x, y)
          {
            LessTrans(x, k, y);
          }
          k := x;
        }
        todo := todo - {x};
      }
    }

    /** enforceSize. It stops at the write to a nil map exactly if Panics. */
    method EnforceSize(n: Limits) returns (ok: bool)
      modifies this
      ensures ok <==> !Panics(n, old(View()))
      ensures ok ==> Enforced(n, old(View()), View())
    {
      hide Size, Less, Shedding, Stage, Enforced;
      ghost var e0 := View();
      ClipMessage(n);
      ghost var gone: set<Key> := {};
      StageStart(n, e0);
      assert Panics(n, e0) ==> View() == e0;
      var size := EntrySize();
      while size > n.maxEntry
        invariant size == Size(View())
        invariant Stage(n, e0, View(), gone)
        invariant Panics(n, e0) ==> View() == e0
        decreases |rawMessage|, if fields.Some? then |fields.value| else 0
      {
        ghost var e := View();
        if rawMessage != [] {
          var budget := n.maxEntry - |message| - SLACK;
          if budget < 0 {
            budget := 0;
          }
          if budget < |rawMessage| {
            CutStep(n, e0, e, gone);
            rawMessage := rawMessage[..budget];
            if fields.None? {
              return false;
            }
            fields := Some(fields.value[TRUNCATED := YES]);
          } else {
            rawMessage := [];
            RawStays(n, e0, e, gone);
            GiveUpStep(n, e0, e, gone);
            gone := {};
            StageSheds(n, e0, View(), gone);
          }
        } else {
          gone := NowShedding(n, e0, e, gone);
          if fields.Some? && fields.value != map[] {
            var k := FirstKey();
            ShedStep(n, e0, e, gone, k);
            KeysLess(fields.value, k);
            fields := Some(fields.value - {k});
            gone := gone + {k};
            StageSheds(n, e0, View(), gone);
          } else {
            // the message alone exceeds the cap
            ShedEnds(n, e0, e, gone);
            if |message| > n.maxEntry {
              message := message[..n.maxEntry];
            }
            return true;
          }
        }
        size := EntrySize();
      }
      StageFits(n, e0, View(), gone);
      return true;
    }

    /** The guard on the message, before anything else is weighed. */
    method ClipMessage(n: Limits)
      modifies this
      ensures View() == Clipped(n, old(View()))
    {
      if |message| > n.maxMessage {
        message := message[..n.maxMessage];
        if fields.None? {
          fields := Some(map[]);
        }
        fields := Some(fields.value[TRUNCATED := YES]);
      }
    }
  }

  // ----- what the caller gets -----

  /** The entry fits, or everything but the message is gone and that is within its
      limits. Fields go only after the raw message, the host name never. */
  lemma Fits(n: Limits, e0: Entry, e: Entry)
    requires Enforced(n, e0, e)
    ensures Size(e) <= n.maxEntry || (e.raw == [] && e.Map() == map[] && |e.message| <= n.maxEntry)
    ensures forall ks :: Lists(ks, e.Map()) ==>
              || |e.message| + |e.raw| + |e.host| + 256 + FieldBytes(ks, e.Map()) <= n.maxEntry
              || (e.raw == [] && e.Map() == map[] && |e.message| <= n.maxEntry)
    ensures |e.message| <= n.maxMessage && e.host == e0.host
    ensures e.raw != [] ==> e.Map().Keys >= e0.Map().Keys
  {
    forall ks | Lists(ks, e.Map())
      ensures Size(e) == |e.message| + |e.raw| + |e.host| + 256 + FieldBytes(ks, e.Map())
    {
      SizeIs(e, ks);
    }
    hide Lists, FieldBytes;
    hide Size, Above;
    var s := RawStage(n, e0);
    var gone :| Shed(n, s, gone) && EndsAs(n, s, gone, e);
    RawStageKeeps(n, e0);
    hide RawStage;
    assert s.raw != [] ==> s.Map() - gone == s.Map();
  }

  lemma RawStageKeeps(n: Limits, e0: Entry)
    ensures var s := RawStage(n, e0);
            s.host == e0.host && |s.message| <= n.maxMessage && s.Map().Keys >= e0.Map().Keys
  {
    hide Size;
  }

  predicate Prefix(a: Bytes, b: Bytes) {
    |a| <= |b| && a == b[..|a|]
  }

  /** Only tails are cut and only the mark is added: an entry within both limits stays
      as it is, and a raw message that was cut but not given up is marked. */
  lemma KeepsFronts(n: Limits, e0: Entry, e: Entry)
    requires Enforced(n, e0, e)
    ensures Prefix(e.message, e0.message) && Prefix(e.raw, e0.raw)
    ensures forall k :: k in e.Map() ==>
              || (k == [116, 114, 117, 110, 99, 97, 116, 101, 100] && e.Map()[k] == [116, 114, 117, 101])
              || (k in e0.Map() && e.Map()[k] == e0.Map()[k])
    ensures Size(e0) <= n.maxEntry && |e0.message| <= n.maxMessage ==> e == e0
    ensures e.raw != [] && (|e.raw| < |e0.raw| || |e.message| < |e0.message|) ==>
              TRUNCATED in e.Map() && e.Map()[TRUNCATED] == YES
  {
    hide Size, Above;
    var s := RawStage(n, e0);
    var gone :| Shed(n, s, gone) && EndsAs(n, s, gone, e);
    FrontsOfStage(n, e0);
    NoneGone(s);
    ShedNone(n, s);
    if Size(s) <= n.maxEntry {
      GoneWithin(n, s, {}, gone);
      assert gone == {};
    }
    hide RawStage;
  }

  lemma FrontsOfStage(n: Limits, e0: Entry)
    ensures var s := RawStage(n, e0);
            && Prefix(s.message, e0.message) && Prefix(s.raw, e0.raw)
            && (forall k :: k in s.Map() ==>
                  (k == TRUNCATED && s.Map()[k] == YES) || (k in e0.Map() && s.Map()[k] == e0.Map()[k]))
            && (Size(e0) <= n.maxEntry && |e0.message| <= n.maxMessage ==> s == e0)
            && (s.raw != [] && (|s.raw| < |e0.raw| || |s.message| < |e0.message|) ==>
                  TRUNCATED in s.Map() && s.Map()[TRUNCATED] == YES)
            && (Size(s) <= n.maxEntry || s.raw == [])
  {
    hide Size;
  }

  /** If a cut-off leaves an entry that fits, any other keeps what it keeps. */
  lemma GoneWithin(n: Limits, s: Entry, g: set<Key>, h: set<Key>)
    requires Shed(n, s, g) && Shed(n, s, h) && Size(s.WithFields(s.Map() - g)) <= n.maxEntry
    ensures h <= g
  {
    if k :| k in h && k !in g {
      var f := s.Map();
      forall x | x in Above(f, k)
        ensures x in f - g
      {
        LessTotal(x, k);
      }
      WeightMonotone(Above(f, k), f - g);
      assert false;
    }
  }

  lemma AllGone(n: Limits, s: Entry, g: set<Key>, h: set<Key>)
    requires Shed(n, s, g) && Shed(n, s, h)
    requires (s.WithFields(s.Map() - g)).Map() == map[] && Size(s.WithFields(s.Map() - h)) > n.maxEntry
    requires (s.WithFields(s.Map() - h)).Map() == map[]
    ensures g == h
  {
    assert (s.Map() - g).Keys == s.Map().Keys - g;
    assert (s.Map() - h).Keys == s.Map().Keys - h;
  }

  /** The outcome is determined: the cut-off is the only one possible. */
  lemma Determined(n: Limits, e0: Entry, a: Entry, b: Entry)
    requires Enforced(n, e0, a) && Enforced(n, e0, b)
    ensures a == b
  {
    hide Size, RawStage, Shed;
    var s := RawStage(n, e0);
    var g :| Shed(n, s, g) && EndsAs(n, s, g, a);
    var h :| Shed(n, s, h) && EndsAs(n, s, h, b);
    if Size(s.WithFields(s.Map() - g)) <= n.maxEntry {
      GoneWithin(n, s, g, h);
      if Size(s.WithFields(s.Map() - h)) <= n.maxEntry {
        GoneWithin(n, s, h, g);
        assert g == h;
      } else {
        KeepsLess(n, s, g, h);
      }
    } else if Size(s.WithFields(s.Map() - h)) <= n.maxEntry {
      GoneWithin(n, s, h, g);
      KeepsLess(n, s, h, g);
    } else {
      AllGone(n, s, g, h);
    }
  }

  /** Shedding less cannot fit when shedding everything does not. */
  lemma KeepsLess(n: Limits, s: Entry, g: set<Key>, h: set<Key>)
    requires h <= g && (s.WithFields(s.Map() - h)).Map() == map[]
    ensures s.WithFields(s.Map() - g) == s.WithFields(s.Map() - h)
  {
    assert s.Map() - g == map[] || s.fields.None?;
  }

  /** Enforcing twice is enforcing once, and the second time cannot stop. */
  lemma Idempotent(n: Limits, e0: Entry, e: Entry, again: Entry)
    requires Enforced(n, e0, e)
    ensures !Panics(n, e)
    ensures Enforced(n, e, again) ==> again == e
  {
    Fits(n, e0, e);
    assert Clipped(n, e) == e;
    assert RawStage(n, e) == e;
    NoneGone(e);
    ShedNone(n, e);
    assert Clip(e.message, n.maxEntry) == e.message || Size(e) <= n.maxEntry;
    assert EndsAs(n, e, {}, e);
    if Enforced(n, e, again) {
      Determined(n, e, e, again);
    }
  }

  /** The stop at the nil map in terms of lengths. */
  lemma PanicsExactly(n: Limits, e: Entry)
    ensures Panics(n, e) <==>
              && e.fields.None? && |e.message| <= n.maxMessage
              && |e.message| + |e.raw| + |e.host| + 256 > n.maxEntry
              && |e.raw| > (if n.maxEntry >= |e.message| + 1024 then n.maxEntry - |e.message| - 1024 else 0)
  {
  }

  /** Any raw message longer than the entry limit does it, and none that the two limits
      leave room for; by default that is 195584 bytes. */
  lemma PanicBounds(n: Limits, e: Entry)
    requires e.fields.None? && |e.message| <= n.maxMessage
    ensures |e.raw| > n.maxEntry ==> Panics(n, e)
    ensures |e.raw| + n.maxMessage + 1024 <= n.maxEntry ==> !Panics(n, e)
    ensures n == DEFAULT_LIMITS && |e.raw| <= 195_584 ==> !Panics(n, e)
  {
    PanicsExactly(n, e);
  }

  lemma ApproxBound(n: Limits, e0: Entry, e: Entry)
    requires Enforced(n, e0, e) && n.maxMessage + 256 <= n.maxEntry
    ensures |e.message| + |e.raw| + 128 + 128 <= n.maxEntry
  {
    Fits(n, e0, e);
  }

  /** What becomes of the message and the raw text, in lengths. The message loses just what
      is over its limit, or over the entry limit when nothing else is left. The raw text
      is kept if all fits; otherwise it is cut to 1024 bytes below the room the message
      leaves, or given up if it is not longer than that or the rest still does not fit. */
  lemma Lengths(n: Limits, e0: Entry, e: Entry)
    requires Enforced(n, e0, e)
    ensures var m := Min(|e0.message|, n.maxMessage);
            || |e.message| == m
            || (e.raw == [] && e.Map() == map[] && |e.message| == Min(m, n.maxEntry))
    ensures var m := Min(|e0.message|, n.maxMessage);
            var room := if n.maxEntry >= m + 1024 then n.maxEntry - m - 1024 else 0;
            && (|e.raw| == |e0.raw| || |e.raw| == Min(|e0.raw|, room) || e.raw == [])
            && (e.raw != [] && |e.raw| < |e0.raw| ==> |e.raw| == room)
            && (|e0.message| <= n.maxMessage && Size(e0) <= n.maxEntry ==> |e.raw| == |e0.raw|)
            && (|e0.message| <= n.maxMessage && Size(e0) > n.maxEntry && |e0.raw| <= room ==> e.raw == [])
            && (|e0.message| <= n.maxMessage && Size(e0) > n.maxEntry ==> |e.raw| <= room)
  {
    hide Size, Above;
    var s := RawStage(n, e0);
    var gone :| Shed(n, s, gone) && EndsAs(n, s, gone, e);
    StageLengths(n, e0);
    hide RawStage, Shed;
  }

  lemma StageLengths(n: Limits, e0: Entry)
    ensures var s := RawStage(n, e0);
            var m := Min(|e0.message|, n.maxMessage);
            var room := if n.maxEntry >= m + 1024 then n.maxEntry - m - 1024 else 0;
            && |s.message| == m
            && (|s.raw| == |e0.raw| || |s.raw| == Min(|e0.raw|, room) || s.raw == [])
            && (s.raw != [] && |s.raw| < |e0.raw| ==> |s.raw| == room)
            && (|e0.message| <= n.maxMessage && Size(e0) <= n.maxEntry ==> |s.raw| == |e0.raw|)
            && (|e0.message| <= n.maxMessage && Size(e0) > n.maxEntry && |e0.raw| <= room ==> s.raw == [])
            && (|e0.message| <= n.maxMessage && Size(e0) > n.maxEntry ==> |s.raw| <= room)
  {
    hide Size;
  }

  /** A message over its limit is marked "truncated", and if there is room for the mark
      nothing else changes. */
  lemma MarkStays(n: Limits, e0: Entry, e: Entry)
    requires Enforced(n, e0, e) && |e0.message| > n.maxMessage && Size(e0) + 13 <= n.maxEntry
    ensures e == Entry(e0.message[..n.maxMessage], e0.raw, e0.host,
                       Some(e0.Map()[[116, 114, 117, 110, 99, 97, 116, 101, 100] := [116, 114, 117, 101]]))
  {
    MarkWeight(e0.Map());
    var s := Clipped(n, e0);
    assert Size(s) <= n.maxEntry;
    hide Size;
    assert RawStage(n, e0) == s;
    var gone :| Shed(n, s, gone) && EndsAs(n, s, gone, e);
    NoneGone(s);
    ShedNone(n, s);
    GoneWithin(n, s, {}, gone);
    assert gone == {};
  }

  lemma MarkWeight(f: Fields)
    ensures Weight(f[TRUNCATED := YES]) <= Weight(f) + 13
  {
    var g := f[TRUNCATED := YES];
    WeightWithout(g, TRUNCATED);
    assert g - {TRUNCATED} == f - {TRUNCATED};
    WeightMonotone(f - {TRUNCATED}, f);
  }
}
