/** The list of reservation ids that a payment's transaction stores as one text. */
module IdList {
  import opened Text

  function Kept(parts: seq<string>): seq<string> {
    if parts == [] then []
    else
      var n := |parts| - 1;
      Kept(parts[..n]) + (if TrimSpace(parts[n]) != "" then [TrimSpace(parts[n])] else [])
  }

  /** The ids named by the stored text. */
  function IdsOf(csv: string): seq<string> {
    Kept(Split(csv))
  }

  lemma KeptStep(parts: seq<string>, i: nat)
    requires i < |parts|
    ensures Kept(parts[..i + 1]) == Kept(parts[..i]) + (if TrimSpace(parts[i]) != "" then [TrimSpace(parts[i])] else [])
  {
    assert parts[..i + 1][..i] == parts[..i];
  }

  method ReservationIds(csv: string) returns (out: seq<string>)
    ensures out == IdsOf(csv)
  {
    out := [];
    var parts := Split(csv);
    for i := 0 to |parts|
      invariant out == Kept(parts[..i])
    {
      KeptStep(parts, i);
      var part := TrimSpace(parts[i]);
      if part != "" {
        out := out + [part];
      }
    }
    assert parts[..|parts|] == parts;
  }

  predicate PlainId(id: string) {
    id != "" && Trimmed(id) && ',' !in id
  }

  lemma {:induction false} KeptPlain(parts: seq<string>, id: string)
    requires (forall p | p in parts :: ',' !in p) && id in Kept(parts)
    ensures PlainId(id)
  {
    var n := |parts| - 1;
    if id in Kept(parts[..n]) {
      KeptPlain(parts[..n], id);
    } else {
      if ',' in id { TrimSpaceWithin(parts[n], ','); }
    }
  }

  lemma {:induction false} KeptAll(parts: seq<string>)
    requires forall p | p in parts :: PlainId(p)
    ensures Kept(parts) == parts
  {
    if parts != [] {
      var n := |parts| - 1;
      KeptAll(parts[..n]);
      assert parts[n] in parts && parts == parts[..n] + [parts[n]];
    }
  }

  lemma PlainRoundTrip(ids: seq<string>)
    requires forall id | id in ids :: PlainId(id)
    ensures IdsOf(Join(ids)) == ids
  {
    SplitJoin(ids);
    if ids == [] {
      KeptOne("");
    } else {
      KeptAll(ids);
    }
  }

  lemma KeptOne(part: string)
    ensures Kept([part]) == if TrimSpace(part) == "" then [] else [TrimSpace(part)]
  {
    var parts := [part];
    assert parts[..0] == [];
  }

  /** The list that CreateCheckoutSession joined comes back exactly when every id is non-empty, trimmed
      and free of commas. */
  lemma IdsRoundTrip(ids: seq<string>)
    ensures IdsOf(Join(ids)) == ids <==> forall id | id in ids :: PlainId(id)
  {
    if forall id | id in ids :: PlainId(id) {
      PlainRoundTrip(ids);
    } else {
      var id :| id in ids && !PlainId(id);
      if id in IdsOf(Join(ids)) {
        KeptPlain(Split(Join(ids)), id);
      }
    }
  }
}
