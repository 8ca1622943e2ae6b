/**
 * What `Append` makes of a record and what `compact` keeps, in internal/knowledge/archive.go. A context carries the
 * tenant of an authenticated identity, or "" for none.
 */
module ArchiveCompaction {
  import opened Text
  import opened ArchiveRecords

  /** The archive's settings from the environment, and the secret filter and content hash, left abstract. */
  datatype Settings = Settings(
    project: string, repository: string, branch: string, commit: string, agent: string, model: string,
    redact: string -> string, hash: (string, string, string) -> string)

  ghost predicate LawfulSettings(s: Settings) {
    && (forall x :: s.redact(s.redact(x)) == s.redact(x))
    && (forall kind, text, payload :: s.hash(kind, text, payload) != "")
  }

  /** `Append` up to marshalling: defaults, then the content hash of the text as given, then redaction. */
  function Normalise(s: Settings, ctx: string, now: int, r: Record): Record {
    var hidden := if r.payload == "" then "" else s.redact(r.payload);
    Record(
      if r.schemaVersion == 0 then 1 else r.schemaVersion,
      OrElse(r.tenant, ctx),
      if r.timestamp == 0 then now else r.timestamp,
      r.kind, s.redact(r.text), hidden,
      OrElse(r.project, s.project), OrElse(r.repository, s.repository), OrElse(r.branch, s.branch),
      OrElse(r.commit, s.commit), OrElse(r.agent, s.agent), OrElse(r.model, s.model),
      OrElse(r.contentHash, s.hash(r.kind, r.text, r.payload)),
      r.sensitive || s.redact(r.text) != r.text || hidden != r.payload, r.details)
  }

  /** A record as `Append` leaves it, apart from its tenant. */
  predicate IsNormal(s: Settings, r: Record) {
    && r.schemaVersion != 0 && r.timestamp != 0 && r.contentHash != ""
    && s.redact(r.text) == r.text && (r.payload == "" || s.redact(r.payload) == r.payload)
    && r.project == OrElse(r.project, s.project) && r.repository == OrElse(r.repository, s.repository)
    && r.branch == OrElse(r.branch, s.branch) && r.commit == OrElse(r.commit, s.commit)
    && r.agent == OrElse(r.agent, s.agent) && r.model == OrElse(r.model, s.model)
  }

  /** The only field of a normal record that a further `Append` can change is an empty tenant. */
  function Relabel(ctx: string, r: Record): Record {
    r.(tenant := OrElse(r.tenant, ctx))
  }

  lemma NormaliseIsNormal(s: Settings, ctx: string, now: int, r: Record)
    requires LawfulSettings(s) && now != 0
    ensures IsNormal(s, Normalise(s, ctx, now, r))
  {
    assert s.redact(s.redact(r.text)) == s.redact(r.text);
    assert s.redact(s.redact(r.payload)) == s.redact(r.payload);
    assert s.hash(r.kind, r.text, r.payload) != "";
  }

  /**
   * A record counts as sensitive exactly if it did before or redaction changed it; its hash is that of the text as
   * given, so redaction does not show in it; and defaults fill empty fields only.
   */
  lemma RedactionIsMarked(s: Settings, ctx: string, now: int, r: Record)
    ensures var n := Normalise(s, ctx, now, r);
            && (n.sensitive <==> r.sensitive || n.text != r.text || n.payload != r.payload)
            && (r.contentHash == "" ==> n.contentHash == s.hash(r.kind, r.text, r.payload))
            && (forall s': Settings :: s'.(redact := s.redact) == s ==>
                  Normalise(s', ctx, now, r).(sensitive := n.sensitive, text := n.text, payload := n.payload) == n)
  {
  }

  /** What is given stays, apart from redaction, and what is missing gets its default. */
  lemma DefaultsExactly(s: Settings, ctx: string, now: int, r: Record)
    ensures var n := Normalise(s, ctx, now, r);
            && n.schemaVersion == (if r.schemaVersion != 0 then r.schemaVersion else 1)
            && n.timestamp == (if r.timestamp != 0 then r.timestamp else now)
            && n.tenant == (if r.tenant != "" then r.tenant else ctx)
            && n.project == (if r.project != "" then r.project else s.project)
            && n.repository == (if r.repository != "" then r.repository else s.repository)
            && n.branch == (if r.branch != "" then r.branch else s.branch)
            && n.commit == (if r.commit != "" then r.commit else s.commit)
            && n.agent == (if r.agent != "" then r.agent else s.agent)
            && n.model == (if r.model != "" then r.model else s.model)
            && n.contentHash == (if r.contentHash != "" then r.contentHash else s.hash(r.kind, r.text, r.payload))
            && n.kind == r.kind && n.details == r.details
            && n.text == s.redact(r.text) && n.payload == (if r.payload != "" then s.redact(r.payload) else "")
  {
  }

  /**
   * Appending an archived record again, in any context and at any time, changes nothing but an empty tenant; so it
   * changes the record if and only if its tenant is empty and the context has one.
   */
  lemma AppendAgainExactly(s: Settings, ctx: string, now: int, ctx': string, now': int, r: Record)
    requires LawfulSettings(s) && now != 0
    ensures var first := Normalise(s, ctx, now, r);
            && Normalise(s, ctx', now', first) == Relabel(ctx', first)
            && (Normalise(s, ctx', now', first) == first <==> first.tenant != "" || ctx' == "")
  {
    NormaliseIsNormal(s, ctx, now, r);
    NormaliseNormal(s, ctx', now', Normalise(s, ctx, now, r));
  }

  lemma NormaliseNormal(s: Settings, ctx: string, now: int, r: Record)
    requires IsNormal(s, r)
    ensures Normalise(s, ctx, now, r) == Relabel(ctx, r)
  {
  }

  // ---------------------------------------------------------------- what compaction keeps

  /** Time 0 is the zero time, with which nothing is dropped. */
  predicate Dropped(tenant: string, before: int, r: Record) {
    (tenant == "" || r.tenant == tenant) && before != 0 && r.timestamp < before
  }

  function Kept(tenant: string, before: int, rs: seq<Record>): (k: seq<Record>)
    ensures |k| <= |rs|
  {
    if rs == [] then []
    else
      var tail := Kept(tenant, before, rs[1..]);
      if Dropped(tenant, before, rs[0]) then tail else [rs[0]] + tail
  }

  /** The records of the rewritten archive. */
  function Compacted(ctx: string, tenant: string, before: int, rs: seq<Record>): seq<Record> {
    RelabelAll(ctx, Kept(tenant, before, rs))
  }

  function RelabelAll(ctx: string, rs: seq<Record>): seq<Record> {
    seq(|rs|, i requires 0 <= i < |rs| => Relabel(ctx, rs[i]))
  }

  lemma {:induction false} KeptSnoc(tenant: string, before: int, rs: seq<Record>, r: Record)
    ensures Kept(tenant, before, rs + [r]) ==
            Kept(tenant, before, rs) + if Dropped(tenant, before, r) then [] else [r]
  {
    if rs == [] {
      assert Kept(tenant, before, [r][1..]) == [];
    } else {
      assert (rs + [r])[1..] == rs[1..] + [r];
      KeptSnoc(tenant, before, rs[1..], r);
    }
  }

  /** Of the tenant, or of anyone if none is given, and older than a cutoff that is set. */
  predicate Outdated(tenant: string, before: int, r: Record) {
    r.timestamp < before != 0 && tenant in {"", r.tenant}
  }

  /** The positions kept, in order: an independent description of the filter. */
  ghost predicate Selects(pick: seq<int>, tenant: string, before: int, rs: seq<Record>) {
    && (forall i :: 0 <= i < |pick| ==> 0 <= pick[i] < |rs| && !Outdated(tenant, before, rs[pick[i]]))
    && (forall i, j :: 0 <= i < j < |pick| ==> pick[i] < pick[j])
    && (forall p :: 0 <= p < |rs| && !Outdated(tenant, before, rs[p]) ==> p in pick)
  }

  lemma SelectsSnoc(pick: seq<int>, tenant: string, before: int, rs: seq<Record>, r: Record)
    requires Selects(pick, tenant, before, rs)
    ensures Selects(pick + if Dropped(tenant, before, r) then [] else [|rs|], tenant, before, rs + [r])
  {
  }

  ghost predicate PickedFrom(pick: seq<int>, rs: seq<Record>, kept: seq<Record>) {
    |pick| == |kept| && forall i :: 0 <= i < |pick| ==> 0 <= pick[i] < |rs| && kept[i] == rs[pick[i]]
  }

  lemma PickedSnoc(pick: seq<int>, rs: seq<Record>, kept: seq<Record>, r: Record)
    requires PickedFrom(pick, rs, kept)
    ensures PickedFrom(pick, rs + [r], kept) && PickedFrom(pick + [|rs|], rs + [r], kept + [r])
  {
  }

  /** The rewritten archive holds exactly the records not dropped, each once, in their original order. */
  lemma {:induction false} KeptIsExact(tenant: string, before: int, rs: seq<Record>) returns (pick: seq<int>)
    ensures Selects(pick, tenant, before, rs) && PickedFrom(pick, rs, Kept(tenant, before, rs))
  {
    if rs == [] {
      pick := [];
    } else {
      var m := |rs| - 1;
      var r := rs[m];
      assert rs == rs[..m] + [r];
      KeptSnoc(tenant, before, rs[..m], r);
      var init := KeptIsExact(tenant, before, rs[..m]);
      SelectsSnoc(init, tenant, before, rs[..m], r);
      PickedSnoc(init, rs[..m], Kept(tenant, before, rs[..m]), r);
      pick := init + if Dropped(tenant, before, r) then [] else [m];
    }
  }

  predicate AllNamed(rs: seq<Record>) {
    forall i :: 0 <= i < |rs| ==> rs[i].tenant != ""
  }

  /** One tenant's records. */
  function Of(tenant: string, rs: seq<Record>): seq<Record> {
    if rs == [] then []
    else if rs[0].tenant == tenant then [rs[0]] + Of(tenant, rs[1..])
    else Of(tenant, rs[1..])
  }

  lemma RelabelNamed(ctx: string, rs: seq<Record>)
    requires AllNamed(rs) || ctx == ""
    ensures RelabelAll(ctx, rs) == rs
  {
  }

  lemma {:induction false} KeptNamed(tenant: string, before: int, rs: seq<Record>)
    ensures AllNamed(rs) ==> AllNamed(Kept(tenant, before, rs))
  {
    if rs != [] {
      KeptNamed(tenant, before, rs[1..]);
      var tail := Kept(tenant, before, rs[1..]);
      assert AllNamed(rs) ==> AllNamed(rs[1..]) && AllNamed([rs[0]] + tail);
    }
  }

  // ---------------------------------------------------------------- compacting twice

  /** The later cutoff; the zero time drops nothing. */
  function Later(b1: int, b2: int): int {
    if b1 == 0 then b2 else if b2 == 0 then b1 else if b1 < b2 then b2 else b1
  }

  /** Without tenant, and old enough for the second cutoff. */
  predicate Orphan(b2: int, r: Record) {
    r.tenant == "" && b2 != 0 && r.timestamp < b2
  }

  predicate NoOrphans(b2: int, rs: seq<Record>) {
    forall i :: 0 <= i < |rs| ==> !Orphan(b2, rs[i])
  }

  lemma CompactedStep(ctx: string, tenant: string, before: int, rs: seq<Record>)
    requires rs != []
    ensures Compacted(ctx, tenant, before, rs) ==
            (if Dropped(tenant, before, rs[0]) then [] else [Relabel(ctx, rs[0])])
            + Compacted(ctx, tenant, before, rs[1..])
  {
  }

  lemma CompactedSnoc(ctx: string, tenant: string, before: int, rs: seq<Record>, r: Record)
    ensures Compacted(ctx, tenant, before, rs + [r]) ==
            Compacted(ctx, tenant, before, rs) + if Dropped(tenant, before, r) then [] else [Relabel(ctx, r)]
  {
    KeptSnoc(tenant, before, rs, r);
  }

  // ---------------------------------------------------------------- copies cut short

  /** A context that is cancelled once `life` records have been appended, or never, has been after `n` of them. */
  predicate CutShort(life: Option<nat>, n: nat) {
    life.Some? && life.value <= n
  }

  /** What has been appended of `target` when the context was cancelled or a record did not marshal, or all of it. */
  ghost predicate IsCopy(json: Json, life: Option<nat>, target: seq<Record>, copied: seq<Record>) {
    && copied <= target && Encodable(json, copied) && (life.Some? ==> |copied| <= life.value)
    && (|copied| < |target| ==> CutShort(life, |copied|) || json.encode(target[|copied|]) == None)
  }

  lemma CopyIsUnique(json: Json, life: Option<nat>, target: seq<Record>, a: seq<Record>, b: seq<Record>)
    requires IsCopy(json, life, target, a) && IsCopy(json, life, target, b)
    ensures a == b
  {
    assert a == target[..|a|] && b == target[..|b|];
  }

  /** Everything was copied exactly if every record marshals and the context lived long enough. */
  lemma CopiesAllExactly(json: Json, life: Option<nat>, target: seq<Record>, copied: seq<Record>)
    requires IsCopy(json, life, target, copied)
    ensures copied == target <==> Encodable(json, target) && (life.Some? ==> |target| <= life.value)
  {
  }

  /** Compacting the first records gives the first of the compacted records. */
  lemma {:induction false} CompactedMonotone(ctx: string, tenant: string, before: int, rs: seq<Record>,
                                             all: seq<Record>)
    requires rs <= all
    ensures Compacted(ctx, tenant, before, rs) <= Compacted(ctx, tenant, before, all)
  {
    if rs != [] {
      CompactedMonotone(ctx, tenant, before, rs[1..], all[1..]);
      CompactedStep(ctx, tenant, before, rs);
      CompactedStep(ctx, tenant, before, all);
    }
  }

  // ---------------------------------------------------------------- the other tenants

  /** Of a tenant's own compaction the others see nothing, and the records without tenant are gone. */
  lemma {:induction false} OthersAfterCompaction(ctx: string, other: string, before: int, rs: seq<Record>)
    requires ctx != "" && other != ctx
    ensures Of(other, Compacted(ctx, ctx, before, rs)) == if other == "" then [] else Of(other, rs)
  {
    if rs != [] {
      OthersAfterCompaction(ctx, other, before, rs[1..]);
      CompactedStep(ctx, ctx, before, rs);
      var tail := Compacted(ctx, ctx, before, rs[1..]);
      assert ([Relabel(ctx, rs[0])] + tail)[1..] == tail;
      assert [] + tail == tail;
    }
  }

  /**
   * A tenant's own compaction leaves another tenant its records, in their order; and it leaves the records without
   * tenant alone exactly if there are none.
   */
  lemma OtherTenantsUntouchedExactly(ctx: string, other: string, before: int, rs: seq<Record>)
    requires ctx != "" && other != ctx
    ensures Of(other, Compacted(ctx, ctx, before, rs)) == Of(other, rs) <==> other != "" || Of("", rs) == []
  {
    OthersAfterCompaction(ctx, other, before, rs);
  }

  /** The records without tenant, however old, all pass to the tenant that compacts. */
  lemma {:induction false} NamelessRecordsChangeHands(ctx: string, before: int, rs: seq<Record>)
    requires ctx != ""
    ensures |Of(ctx, Compacted(ctx, ctx, before, rs))| == |Of(ctx, Kept(ctx, before, rs))| + |Of("", rs)|
  {
    if rs != [] {
      NamelessRecordsChangeHands(ctx, before, rs[1..]);
      CompactedStep(ctx, ctx, before, rs);
      var tail, kept := Compacted(ctx, ctx, before, rs[1..]), Kept(ctx, before, rs[1..]);
      assert ([Relabel(ctx, rs[0])] + tail)[1..] == tail;
      assert ([rs[0]] + kept)[1..] == kept;
      assert [] + tail == tail;
    }
  }

  // ---------------------------------------------------------------- compacting twice

  /**
   * Compacting at b1 and then at b2 equals compacting once at the later cutoff, for a compaction across tenants or in
   * a context without identity always. A tenant's own compaction relabels records that have no tenant, so that the
   * second one drops those that are old enough although a single compaction keeps them: there the two agree exactly
   * when no such record exists.
   */
  lemma {:induction false} CompactTwiceExactly(ctx: string, tenant: string, b1: int, b2: int, rs: seq<Record>)
    requires tenant == "" || tenant == ctx
    ensures var twice := Compacted(ctx, tenant, b2, Compacted(ctx, tenant, b1, rs));
            var once := Compacted(ctx, tenant, Later(b1, b2), rs);
            && |twice| <= |once|
            && (twice == once <==> tenant == "" || NoOrphans(b2, rs))
  {
    if rs != [] {
      var r, tail := rs[0], rs[1..];
      CompactTwiceExactly(ctx, tenant, b1, b2, tail);
      CompactedStep(ctx, tenant, b1, rs);
      CompactedStep(ctx, tenant, Later(b1, b2), rs);
      var first := Compacted(ctx, tenant, b1, tail);
      if !Dropped(tenant, b1, r) {
        CompactedStep(ctx, tenant, b2, [Relabel(ctx, r)] + first);
        assert ([Relabel(ctx, r)] + first)[1..] == first;
      }
      assert NoOrphans(b2, rs) <==> !Orphan(b2, r) && NoOrphans(b2, tail);
      HeadDecides(ctx, tenant, b1, b2, r);
      var twice, once := Compacted(ctx, tenant, b2, first), Compacted(ctx, tenant, Later(b1, b2), tail);
      ConsInjective(Relabel(ctx, r), twice, once);
      assert [] + first == first;
      assert [] + twice == twice && [] + once == once;
    }
  }

  /** One record: dropped by the first or, relabelled, by the second, against dropped at the later cutoff. */
  lemma HeadDecides(ctx: string, tenant: string, b1: int, b2: int, r: Record)
    requires tenant == "" || tenant == ctx
    ensures Dropped(tenant, Later(b1, b2), r) ==> Dropped(tenant, b1, r) || Dropped(tenant, b2, Relabel(ctx, r))
    ensures Dropped(tenant, b1, r) ==> Dropped(tenant, Later(b1, b2), r)
    ensures Dropped(tenant, b2, Relabel(ctx, r)) ==>
              (Dropped(tenant, Later(b1, b2), r) <==> tenant == "" || !Orphan(b2, r))
    ensures Relabel(ctx, Relabel(ctx, r)) == Relabel(ctx, r)
    ensures tenant != "" && Orphan(b2, r) ==> !Dropped(tenant, b1, r) && Dropped(tenant, b2, Relabel(ctx, r))
  {
  }

  lemma ConsInjective(r: Record, xs: seq<Record>, ys: seq<Record>)
    ensures [r] + xs == [r] + ys <==> xs == ys
    ensures |xs| <= |ys| ==> xs != [r] + ys
  {
    assert [r] + xs == [r] + ys ==> xs == ([r] + xs)[1..] == ([r] + ys)[1..] == ys;
  }
}
