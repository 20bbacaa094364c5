/** The TransIP zone editor behind ACME DNS challenges: whole-zone reads and writes. */
module DnsZone {
  import opened Common
  import opened Strings

  datatype Entry = Entry(name: string, expire: int, kind: string, content: string)

  /** The record name and the key of an ACME challenge. */
  datatype Challenge = Challenge(record: string, key: string)

  datatype Op = Present(challenge: Challenge) | CleanUp(challenge: Challenge)

  predicate Matches(e: Entry, c: Challenge) {
    e.name == c.record && e.kind == "TXT" && e.content == c.key
  }

  /** The zone has the challenge's TXT entry. */
  ghost predicate Answers(zone: seq<Entry>, c: Challenge) {
    exists i | 0 <= i < |zone| :: zone[i].name == c.record && zone[i].kind == "TXT" && zone[i].content == c.key
  }

  predicate Holds(zone: seq<Entry>, c: Challenge) {
    exists i | 0 <= i < |zone| :: Matches(zone[i], c)
  }

  function EntryFor(c: Challenge): Entry {
    Entry(c.record, 300, "TXT", c.key)
  }

  /** The entries that do not match a challenge, in order. */
  function Kept(zone: seq<Entry>, c: Challenge): seq<Entry> {
    if zone == [] then []
    else
      var n := |zone| - 1;
      Kept(zone[..n], c) + if Matches(zone[n], c) then [] else [zone[n]]
  }

  function Apply(zone: seq<Entry>, op: Op): seq<Entry> {
    match op
    case Present(c) => if Holds(zone, c) then zone else zone + [EntryFor(c)]
    case CleanUp(c) => Kept(zone, c)
  }

  function RunAll(zone: seq<Entry>, ops: seq<Op>): seq<Entry> {
    if ops == [] then zone else Apply(RunAll(zone, ops[..|ops| - 1]), ops[|ops| - 1])
  }

  // ------------------------------------------------------------------ the solver

  /** The filter over `entries[:0]`: kept entries move down in the array that is being read. */
  method FilterInPlace(a: array<Entry>, c: Challenge) returns (n: nat)
    modifies a
    ensures n <= a.Length && a[..n] == Kept(old(a[..]), c)
    ensures a[n..] == old(a[n..])
  {
    n := 0;
    for i := 0 to a.Length
      invariant n <= i
      invariant a[..n] == Kept(old(a[..])[..i], c)
      invariant forall j | n <= j < a.Length :: a[j] == old(a[j])
    {
      var entry := a[i];
      assert old(a[..])[..i + 1][..i] == old(a[..])[..i];
      if Matches(entry, c) {
        continue;
      }
      a[n] := entry;
      n := n + 1;
    }
    assert old(a[..])[..a.Length] == old(a[..]);
  }

  class Zone {
    var entries: seq<Entry>

    constructor (initial: seq<Entry>)
      ensures entries == initial
    {
      entries := initial;
    }

    method Present(c: Challenge) returns (written: bool)
      modifies this
      ensures entries == Apply(old(entries), Op.Present(c))
      ensures written <==> !Answers(old(entries), c)
      ensures entries == if written then old(entries) + [Entry(c.record, 300, "TXT", c.key)] else old(entries)
    {
      AnswersExact(entries, c);
      var read := entries;
      for i := 0 to |read|
        invariant forall j | 0 <= j < i :: !Matches(read[j], c)
      {
        if Matches(read[i], c) {
          return false;
        }
      }
      entries := read + [EntryFor(c)];
      return true;
    }

    /** The zone is written back only when an entry went away. */
    method CleanUp(c: Challenge) returns (written: bool)
      modifies this
      ensures entries == Apply(old(entries), Op.CleanUp(c))
      ensures written <==> Answers(old(entries), c)
      ensures forall e :: e in entries <==> e in old(entries) && !(e.name == c.record && e.kind == "TXT" && e.content == c.key)
    {
      AnswersExact(entries, c);
      KeptMembers(entries, c);
      var n := |entries|;
      var a := new Entry[n](i requires 0 <= i < n reads this => if 0 <= i < |entries| then entries[i] else EntryFor(c));
      assert a[..] == entries;
      var kept := FilterInPlace(a, c);
      KeptLength(entries, c);
      if kept == n {
        return false;
      }
      entries := a[..kept];
      return true;
    }
  }

  lemma AnswersExact(zone: seq<Entry>, c: Challenge)
    ensures Holds(zone, c) <==> Answers(zone, c)
  {
    if Holds(zone, c) {
      var i :| 0 <= i < |zone| && Matches(zone[i], c);
      assert zone[i].name == c.record;
    }
    if Answers(zone, c) {
      var i :| 0 <= i < |zone| && zone[i].name == c.record && zone[i].kind == "TXT" && zone[i].content == c.key;
      assert Matches(zone[i], c);
    }
  }

  lemma {:induction false} KeptMembers(zone: seq<Entry>, c: Challenge)
    ensures forall e ::
              e in Kept(zone, c) <==> e in zone && !(e.name == c.record && e.kind == "TXT" && e.content == c.key)
  {
    if zone != [] {
      var n := |zone| - 1;
      KeptMembers(zone[..n], c);
      assert zone == zone[..n] + [zone[n]];
    }
  }

  /** Entries that stay keep their order. */
  lemma {:induction false} KeptConcat(a: seq<Entry>, b: seq<Entry>, c: Challenge)
    ensures Kept(a + b, c) == Kept(a, c) + Kept(b, c)
  {
    if b == [] {
      assert a + b == a;
    } else {
      var n := |b| - 1;
      assert (a + b)[..|a + b| - 1] == a + b[..n];
      KeptConcat(a, b[..n], c);
      KeptLast(a + b, c);
      KeptLast(b, c);
    }
  }

  lemma {:induction false} KeptLength(zone: seq<Entry>, c: Challenge)
    ensures |Kept(zone, c)| <= |zone|
    ensures |Kept(zone, c)| == |zone| <==> !Holds(zone, c)
    ensures !Holds(zone, c) ==> Kept(zone, c) == zone
  {
    if zone != [] {
      var n := |zone| - 1;
      KeptLength(zone[..n], c);
      HoldsLast(zone, c);
      assert zone == zone[..n] + [zone[n]];
    }
  }

  lemma HoldsLast(zone: seq<Entry>, c: Challenge)
    requires zone != []
    ensures Holds(zone, c) <==> Holds(zone[..|zone| - 1], c) || Matches(zone[|zone| - 1], c)
  {
    var n := |zone| - 1;
    assert forall i | 0 <= i < n :: zone[..n][i] == zone[i];
  }

  lemma HoldsAppended(zone: seq<Entry>, e: Entry, c: Challenge)
    ensures Holds(zone + [e], c) <==> Holds(zone, c) || Matches(e, c)
    ensures Kept(zone + [e], c) == Kept(zone, c) + if Matches(e, c) then [] else [e]
  {
    var longer := zone + [e];
    assert longer[..|longer| - 1] == zone;
    HoldsLast(longer, c);
  }

  lemma {:induction false} KeptHolds(zone: seq<Entry>, c: Challenge, d: Challenge)
    ensures Holds(Kept(zone, c), d) <==> Holds(zone, d) && d != c
  {
    if zone != [] {
      var n := |zone| - 1;
      KeptHolds(zone[..n], c, d);
      HoldsLast(zone, d);
      HoldsAppended(Kept(zone[..n], c), zone[n], d);
      KeptLast(zone, c);
    }
  }

  lemma KeptLast(zone: seq<Entry>, c: Challenge)
    requires zone != []
    ensures var n := |zone| - 1;
      Kept(zone, c) == if Matches(zone[n], c) then Kept(zone[..n], c) else Kept(zone[..n], c) + [zone[n]]
  {
  }

  // ------------------------------------------------------------- bystanders survive

  predicate Touches(ops: seq<Op>, e: Entry) {
    exists i | 0 <= i < |ops| :: Matches(e, ops[i].challenge)
  }

  /** The entries that no challenge of a run is about, in order. */
  function Untouched(zone: seq<Entry>, ops: seq<Op>): seq<Entry> {
    if zone == [] then []
    else
      var n := |zone| - 1;
      Untouched(zone[..n], ops) + if Touches(ops, zone[n]) then [] else [zone[n]]
  }

  lemma {:induction false} UntouchedMembers(zone: seq<Entry>, ops: seq<Op>)
    ensures forall e ::
              e in Untouched(zone, ops) <==>
              e in zone && forall op | op in ops ::
                !(e.name == op.challenge.record && e.kind == "TXT" && e.content == op.challenge.key)
  {
    if zone != [] {
      var n := |zone| - 1;
      UntouchedMembers(zone[..n], ops);
      assert zone == zone[..n] + [zone[n]];
      if Touches(ops, zone[n]) {
        var i :| 0 <= i < |ops| && Matches(zone[n], ops[i].challenge);
        assert ops[i] in ops;
      } else {
        forall op | op in ops ensures !Matches(zone[n], op.challenge) {
          var i :| 0 <= i < |ops| && ops[i] == op;
        }
      }
    }
  }

  lemma {:induction false} UntouchedKept(zone: seq<Entry>, ops: seq<Op>, c: Challenge)
    requires exists i | 0 <= i < |ops| :: ops[i].challenge == c
    ensures Untouched(Kept(zone, c), ops) == Untouched(zone, ops)
  {
    if zone != [] {
      var n := |zone| - 1;
      UntouchedKept(zone[..n], ops, c);
      var before := Kept(zone[..n], c);
      if Matches(zone[n], c) {
        assert Touches(ops, zone[n]);
        assert Kept(zone, c) == before;
      } else {
        assert (before + [zone[n]])[..|before|] == before;
      }
    }
  }

  lemma UntouchedStep(zone: seq<Entry>, ops: seq<Op>, i: nat)
    requires i < |ops|
    ensures Untouched(Apply(zone, ops[i]), ops) == Untouched(zone, ops)
  {
    var c := ops[i].challenge;
    if ops[i].CleanUp? {
      UntouchedKept(zone, ops, c);
    } else {
      var longer := zone + [EntryFor(c)];
      assert Matches(EntryFor(c), ops[i].challenge);
      assert longer[..|longer| - 1] == zone;
    }
  }

  lemma RunStep(zone: seq<Entry>, ops: seq<Op>, n: nat)
    requires 0 < n <= |ops|
    ensures RunAll(zone, ops[..n]) == Apply(RunAll(zone, ops[..n - 1]), ops[n - 1])
  {
    assert ops[..n][..n - 1] == ops[..n - 1] && ops[..n][n - 1] == ops[n - 1];
  }

  lemma {:induction false} UntouchedPrefix(zone: seq<Entry>, ops: seq<Op>, n: nat)
    requires n <= |ops|
    ensures Untouched(RunAll(zone, ops[..n]), ops) == Untouched(zone, ops)
  {
    if n == 0 {
      assert RunAll(zone, ops[..0]) == zone;
    } else {
      UntouchedPrefix(zone, ops, n - 1);
      RunStep(zone, ops, n);
      UntouchedStep(RunAll(zone, ops[..n - 1]), ops, n - 1);
    }
  }

  /** Over any run, every entry that no challenge of the run is about keeps its content and its place among the others. */
  lemma BystandersSurvive(zone: seq<Entry>, ops: seq<Op>)
    ensures Untouched(RunAll(zone, ops), ops) == Untouched(zone, ops)
  {
    UntouchedPrefix(zone, ops, |ops|);
    assert ops[..|ops|] == ops;
  }

  // --------------------------------------------------------- challenges are in the zone

  /** What the last operation on a challenge was, if any. */
  function LastAbout(ops: seq<Op>, c: Challenge): Option<Op> {
    if ops == [] then None
    else if ops[|ops| - 1].challenge == c then Some(ops[|ops| - 1])
    else LastAbout(ops[..|ops| - 1], c)
  }

  /** After any run a challenge is in the zone exactly when it was presented last, or never touched and there before. */
  lemma {:induction false} HoldsExactly(zone: seq<Entry>, ops: seq<Op>, c: Challenge)
    ensures Holds(RunAll(zone, ops), c) <==>
            match LastAbout(ops, c) case None => Holds(zone, c) case Some(op) => op.Present?
  {
    if ops != [] {
      var n := |ops| - 1;
      var before, op := RunAll(zone, ops[..n]), ops[n];
      HoldsExactly(zone, ops[..n], c);
      match op
      case CleanUp(d) => KeptHolds(before, d, c);
      case Present(d) => HoldsAppended(before, EntryFor(d), c);
    }
  }

  /** A retried call is harmless. */
  lemma Idempotent(zone: seq<Entry>, op: Op)
    ensures Apply(Apply(zone, op), op) == Apply(zone, op)
  {
    var c := op.challenge;
    if op.Present? {
      HoldsAppended(zone, EntryFor(c), c);
    } else {
      KeptHolds(zone, c, c);
      KeptLength(Kept(zone, c), c);
    }
  }

  // ---------------------------------------------------------- cleaning up undoes presenting

  lemma {:induction false} KeptCommutes(zone: seq<Entry>, c: Challenge, d: Challenge)
    ensures Kept(Kept(zone, c), d) == Kept(Kept(zone, d), c)
  {
    if zone != [] {
      var n := |zone| - 1;
      KeptCommutes(zone[..n], c, d);
      HoldsAppended(Kept(zone[..n], c), zone[n], d);
      HoldsAppended(Kept(zone[..n], d), zone[n], c);
      KeptLast(zone, c);
      KeptLast(zone, d);
    }
  }

  lemma CleanCommutes(zone: seq<Entry>, op: Op, c: Challenge)
    requires op.challenge != c
    ensures Kept(Apply(zone, op), c) == Apply(Kept(zone, c), op)
  {
    match op
    case CleanUp(d) => KeptCommutes(zone, c, d);
    case Present(d) =>
      KeptHolds(zone, c, d);
      HoldsAppended(zone, EntryFor(d), c);
  }

  lemma {:induction false} CleanCommutesWithRun(zone: seq<Entry>, ops: seq<Op>, c: Challenge)
    requires forall op | op in ops :: op.challenge != c
    ensures Kept(RunAll(zone, ops), c) == RunAll(Kept(zone, c), ops)
  {
    if ops != [] {
      var n := |ops| - 1;
      assert ops[n] in ops;
      CleanCommutesWithRun(zone, ops[..n], c);
      CleanCommutes(RunAll(zone, ops[..n]), ops[n], c);
    }
  }

  lemma NotAbout(ops: seq<Op>, c: Challenge)
    requires forall op | op in ops :: op.challenge != c
    ensures LastAbout(ops, c).None?
  {
    if ops != [] {
      assert ops[|ops| - 1] in ops;
      NotAbout(ops[..|ops| - 1], c);
    }
  }

  lemma RunWrapped(zone: seq<Entry>, first: Op, ops: seq<Op>, last: Op)
    ensures RunAll(zone, [first] + ops + [last]) == Apply(RunAll(Apply(zone, first), ops), last)
  {
    var all := [first] + ops + [last];
    assert all[..|all| - 1] == [first] + ops;
    RunAfterFirst(zone, first, ops);
  }

  lemma {:induction false} RunAfterFirst(zone: seq<Entry>, first: Op, ops: seq<Op>)
    ensures RunAll(zone, [first] + ops) == RunAll(Apply(zone, first), ops)
  {
    var all := [first] + ops;
    if ops == [] {
      assert all == [first] && all[..0] == [];
    } else {
      assert all[..|all| - 1] == [first] + ops[..|ops| - 1];
      RunAfterFirst(zone, first, ops[..|ops| - 1]);
    }
  }

  /**
   * A challenge that is presented and cleaned up around a run on other challenges leaves the zone of that run alone,
   * exactly when it was not in the zone before.
   */
  lemma CleanUpUndoesPresent(zone: seq<Entry>, ops: seq<Op>, c: Challenge)
    requires forall op | op in ops :: op.challenge != c
    ensures RunAll(zone, [Present(c)] + ops + [CleanUp(c)]) == RunAll(zone, ops) <==> !Holds(zone, c)
  {
    var shown := Apply(zone, Present(c));
    RunWrapped(zone, Present(c), ops, CleanUp(c));
    CleanCommutesWithRun(shown, ops, c);
    HoldsAppended(zone, EntryFor(c), c);
    KeptLength(zone, c);
    assert Kept(shown, c) == Kept(zone, c);
    NotAbout(ops, c);
    HoldsExactly(zone, ops, c);
    KeptHolds(RunAll(shown, ops), c, c);
  }

  // ------------------------------------------------------------------- record names

  predicate IsDot(c: char) { c == '.' }

  function Normal(name: string, lower: string -> string): string {
    TrimBy(lower(Trim(name)), IsDot)
  }

  /** `transipRecordName`; None is the error for a name outside the zone. */
  function RecordName(fqdn: string, zone: string, lower: string -> string): Option<string> {
    var f, z := Normal(fqdn, lower), Normal(zone, lower);
    if f == z then Some("@")
    else if EndsWith(f, "." + z) then Some(f[..|f| - |"." + z|])
    else None
  }

  /** The name that a record of a zone stands for. */
  function NameInZone(record: string, zone: string): string {
    if record == "@" then zone else record + "." + zone
  }

  lemma RecordShape(fqdn: string, zone: string, lower: string -> string)
    requires RecordName(fqdn, zone, lower).Some?
    ensures var f, z, r := Normal(fqdn, lower), Normal(zone, lower), RecordName(fqdn, zone, lower).value;
      (f == z && r == "@") || (f != z && f == r + "." + z && r == f[..|f| - |z| - 1] && (r == "@" <==> f == "@." + z))
  {
    var f, z := Normal(fqdn, lower), Normal(zone, lower);
    if f != z {
      var r := RecordName(fqdn, zone, lower).value;
      assert f == r + f[|r|..] && f[|r|..] == "." + z;
      assert f == r + "." + z;
      assert "@" + "." + z == "@." + z && ("@." + z)[..1] == "@";
    }
  }

  lemma NameEndsInZone(n: string, z: string)
    ensures EndsWith(n + "." + z, "." + z)
  {
    var suffix := "." + z;
    assert n + "." + z == n + suffix;
    assert (n + suffix)[|n|..] == suffix;
  }

  lemma EndsInZone(f: string, z: string)
    ensures EndsWith(f, "." + z) <==> exists n: string :: f == n + "." + z
  {
    if EndsWith(f, "." + z) {
      var n := f[..|f| - |z| - 1];
      assert f == n + f[|n|..];
      assert f == n + "." + z;
    }
    forall n: string | f == n + "." + z ensures EndsWith(f, "." + z) {
      NameEndsInZone(n, z);
    }
  }

  /** A name is accepted exactly when it is the zone or ends in a dot and the zone, and its record names it. */
  lemma RecordNameExact(fqdn: string, zone: string, lower: string -> string)
    ensures var f, z, r := Normal(fqdn, lower), Normal(zone, lower), RecordName(fqdn, zone, lower);
      && (r.Some? <==> f == z || exists n: string :: f == n + "." + z)
      && (r.Some? ==> r.value != "" && (f == NameInZone(r.value, z) || f == "@." + z))
  {
    var f, z, r := Normal(fqdn, lower), Normal(zone, lower), RecordName(fqdn, zone, lower);
    EndsInZone(f, z);
    if r.Some? {
      RecordShape(fqdn, zone, lower);
      var a, b := TrimShape(lower(Trim(fqdn)), IsDot);
      assert f != z ==> f[0] == (r.value + "." + z)[0];
    }
  }

  /** Two names of a zone share a record exactly when they are the same name, or are the zone and "@." before it. */
  lemma RecordsApart(f: string, g: string, zone: string, lower: string -> string)
    requires RecordName(f, zone, lower).Some? && RecordName(g, zone, lower).Some?
    ensures var a, b, z := Normal(f, lower), Normal(g, lower), Normal(zone, lower);
      RecordName(f, zone, lower) == RecordName(g, zone, lower) <==>
      a == b || (a == z && b == "@." + z) || (b == z && a == "@." + z)
  {
    RecordShape(f, zone, lower);
    RecordShape(g, zone, lower);
  }
}
