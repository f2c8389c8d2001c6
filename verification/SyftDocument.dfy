/** The conclusion as the tool performs it: updating one document in place. */
module SyftDocument {
  import opened Collections
  import opened Results
  import opened SbomConclusion
  import Meaning = ConclusionMeaning
  import opened Sorting

  /** The entries with every kept artifact replaced by its judged form. */
  ghost function InPlace(entries: seq<Entry>, verdicts: seq<Verdict>): (r: seq<Entry>)
    requires |verdicts| <= |entries|
    ensures |r| == |entries|
    ensures forall i :: 0 <= i < |verdicts| ==> r[i] == if Kept(verdicts[i]) then Object(verdicts[i].kept) else entries[i]
    ensures forall i :: |verdicts| <= i < |entries| ==> r[i] == entries[i]
  {
    seq(|entries|, i requires 0 <= i < |entries| =>
      if i < |verdicts| && Kept(verdicts[i]) then Object(verdicts[i].kept) else entries[i])
  }

  // The entries up to some place were judged and rewritten, the rest is as it was.
  ghost predicate PartlyJudged(root: Root, before: seq<Entry>, after: seq<Entry>) {
    exists verdicts: seq<Verdict> ::
      |verdicts| <= |before| && Judged(root, before[..|verdicts|], verdicts) && after == InPlace(before, verdicts)
  }

  lemma {:induction false} InPlaceIsRetained(entries: seq<Entry>, verdicts: seq<Verdict>)
    requires |verdicts| == |entries| && ExcludedIds(verdicts) == []
    ensures InPlace(entries, verdicts) == Retained(verdicts)
  {
    if entries != [] {
      var n := |entries| - 1;
      assert ExcludedIds(verdicts[..n]) == [];
      InPlaceIsRetained(entries[..n], verdicts[..n]);
      assert InPlace(entries, verdicts) == InPlace(entries[..n], verdicts[..n]) + [Object(verdicts[n].kept)];
    }
  }

  lemma SupplementStep(root: Root, entries: seq<Entry>, ordered: seq<Authority>, k: nat)
    requires k < |ordered|
    ensures
      var before := Filter(Missing(entries), ordered[..k]);
      Filter(Missing(entries), ordered[..k + 1]) == if Missing(entries)(ordered[k]) then before + [ordered[k]] else before
  {
    assert ordered[..k + 1] == ordered[..k] + [ordered[k]];
    FilterSnoc(Missing(entries), ordered[..k], ordered[k]);
  }

  lemma FailsAfter(root: Root, head: seq<Authority>, x: Authority, tail: seq<Authority>)
    requires Collect(ManifestArtifacts(root, head)).Ok? && ManifestArtifact(root, x).Err?
    ensures Collect(ManifestArtifacts(root, head + [x] + tail)).Err?
  {
    var results := ManifestArtifacts(root, head + [x] + tail);
    CollectAll(ManifestArtifacts(root, head));
    forall i | 0 <= i < |head| ensures results[i].Ok? {
      assert ManifestArtifacts(root, head)[i].Ok?;
    }
    CollectFirstError(results, |head|);
  }

  lemma SupplementFails(root: Root, entries: seq<Entry>, ordered: seq<Authority>, k: nat)
    requires k < |ordered| && Missing(entries)(ordered[k]) && ManifestArtifact(root, ordered[k]).Err?
    requires Collect(ManifestArtifacts(root, Filter(Missing(entries), ordered[..k]))).Ok?
    ensures Collect(ManifestArtifacts(root, Filter(Missing(entries), ordered))).Err?
  {
    FilterAround(Missing(entries), ordered, k);
    FailsAfter(root, Filter(Missing(entries), ordered[..k]), ordered[k], Filter(Missing(entries), ordered[k + 1..]));
  }

  lemma SupplementGrows(root: Root, authorities: seq<Authority>, found: seq<Entry>, authority: Authority, artifact: Entry)
    requires Collect(ManifestArtifacts(root, authorities)) == Ok(found)
    requires ManifestArtifact(root, authority) == Ok(artifact)
    ensures Collect(ManifestArtifacts(root, authorities + [authority])) == Ok(found + [artifact])
  {
    CollectAll(ManifestArtifacts(root, authorities));
    CollectValues(ManifestArtifacts(root, authorities + [authority]), found + [artifact]);
  }

  lemma JudgedFails(root: Root, entries: seq<Entry>, verdicts: seq<Verdict>)
    requires |verdicts| < |entries| && Judged(root, entries[..|verdicts|], verdicts)
    requires Judge(root, entries[|verdicts|]).Err?
    ensures Collect(Judgements(root, entries)).Err?
  {
    forall i | 0 <= i < |verdicts| ensures Judgements(root, entries)[i].Ok? {
      assert Judge(root, entries[..|verdicts|][i]) == Ok(verdicts[i]);
    }
    CollectFirstError(Judgements(root, entries), |verdicts|);
  }

  lemma {:induction false} RepeatsGrow(verdicts: seq<Verdict>, more: seq<Verdict>)
    requires Repeats(ExcludedIds(verdicts))
    ensures Repeats(ExcludedIds(verdicts + more))
  {
    if more == [] {
      assert verdicts + more == verdicts;
    } else {
      var n := |more| - 1;
      RepeatsGrow(verdicts, more[..n]);
      assert (verdicts + more)[..|verdicts| + n] == verdicts + more[..n];
      var ids := ExcludedIds(verdicts + more[..n]);
      var i, j :| 0 <= i < j < |ids| && ids[i] == ids[j];
      var all := ExcludedIds(verdicts + more);
      assert all[i] == ids[i] && all[j] == ids[j];
    }
  }

  lemma JudgedIsPrefix(root: Root, entries: seq<Entry>, verdicts: seq<Verdict>, final: seq<Verdict>)
    requires |verdicts| <= |entries| && Judged(root, entries[..|verdicts|], verdicts) && Collect(Judgements(root, entries)) == Ok(final)
    ensures |verdicts| <= |final| && final == verdicts + final[|verdicts|..]
  {
    CollectAll(Judgements(root, entries));
    forall i | 0 <= i < |verdicts| ensures final[i] == verdicts[i] {
      assert Judge(root, entries[..|verdicts|][i]) == Ok(verdicts[i]);
    }
  }

  lemma RepeatedFails(root: Root, entries: seq<Entry>, verdicts: seq<Verdict>, d: Document)
    requires |verdicts| <= |entries| && Judged(root, entries[..|verdicts|], verdicts) && Repeats(ExcludedIds(verdicts))
    ensures Collect(Judgements(root, entries)).Ok? ==> Settle(root, d, Collect(Judgements(root, entries)).value).Err?
  {
    if Collect(Judgements(root, entries)).Ok? {
      var final := Collect(Judgements(root, entries)).value;
      JudgedIsPrefix(root, entries, verdicts, final);
      RepeatsGrow(verdicts, final[|verdicts|..]);
    }
  }

  /** What the loop's variables hold once the verdicts have been applied. */
  ghost predicate Tallied(entries: seq<Entry>, verdicts: seq<Verdict>, current: seq<Entry>,
    retained: seq<Entry>, excluded: seq<string>, observed: multiset<Identity>, concluded: nat)
  {
    && |verdicts| <= |entries| && current == InPlace(entries, verdicts)
    && retained == Retained(verdicts) && excluded == ExcludedIds(verdicts) && !Repeats(excluded)
    && observed == multiset(Identities(verdicts)) && concluded == |Identities(verdicts)|
  }

  lemma TallyExcluded(entries: seq<Entry>, verdicts: seq<Verdict>, v: Verdict, current: seq<Entry>,
      retained: seq<Entry>, excluded: seq<string>, observed: multiset<Identity>, concluded: nat)
    requires Tallied(entries, verdicts, current, retained, excluded, observed, concluded) && |verdicts| < |entries|
    requires v.Excluded? && v.id !in excluded
    ensures Tallied(entries, verdicts + [v], current, retained, excluded + [v.id], observed, concluded)
  {
    assert (verdicts + [v])[..|verdicts|] == verdicts;
    assert InPlace(entries, verdicts + [v]) == current;
  }

  lemma TallyKept(entries: seq<Entry>, verdicts: seq<Verdict>, v: Verdict, current: seq<Entry>,
      retained: seq<Entry>, excluded: seq<string>, observed: multiset<Identity>, concluded: nat)
    requires Tallied(entries, verdicts, current, retained, excluded, observed, concluded) && |verdicts| < |entries|
    requires !v.Excluded?
    ensures Tallied(entries, verdicts + [v], current[|verdicts| := Object(v.kept)], retained + [Object(v.kept)], excluded,
      if v.FirstParty? then observed + multiset{v.identity} else observed,
      if v.FirstParty? then concluded + 1 else concluded)
  {
    assert (verdicts + [v])[..|verdicts|] == verdicts;
    assert InPlace(entries, verdicts + [v]) == current[|verdicts| := Object(v.kept)];
  }

  lemma JudgedSnoc(root: Root, entries: seq<Entry>, verdicts: seq<Verdict>, v: Verdict)
    requires |verdicts| < |entries| && Judged(root, entries[..|verdicts|], verdicts) && Judge(root, entries[|verdicts|]) == Ok(v)
    ensures Judged(root, entries[..|verdicts| + 1], verdicts + [v])
  {
  }

  lemma FoundAgain(verdicts: seq<Verdict>, v: Verdict)
    requires v.Excluded? && v.id in ExcludedIds(verdicts)
    ensures Repeats(ExcludedIds(verdicts + [v]))
  {
    var ids := ExcludedIds(verdicts);
    assert (verdicts + [v])[..|verdicts|] == verdicts;
    var j :| 0 <= j < |ids| && ids[j] == v.id;
    assert (ids + [v.id])[j] == (ids + [v.id])[|ids|];
  }

  class SyftDocument {
    var descriptor: Option<(string, string)>
    var artifacts: Option<seq<Entry>>
    var relationships: Option<seq<Relationship>>
    var extra: string

    constructor (d: Document)
      ensures Value() == d
    {
      descriptor, artifacts, relationships, extra := d.descriptor, d.artifacts, d.relationships, d.extra;
    }

    ghost function Value(): Document
      reads this
    {
      Document(descriptor, artifacts, relationships, extra)
    }

    /** Appends an artifact for every Python manifest that the document does not list. */
    method SupplementPython(root: Root) returns (ok: bool)
      requires artifacts.Some?
      modifies this`artifacts
      ensures ok <==> Supplements(root, old(artifacts.value)).Ok?
      ensures ok ==> artifacts == Some(old(artifacts.value) + Supplements(root, old(artifacts.value)).value)
    {
      var before := artifacts.value;
      var ordered := Sort(ByPurl, root.authorities);
      ghost var found: seq<Entry> := [];
      assert before + found == before;
      for k := 0 to |ordered|
        invariant artifacts == Some(before + found)
        invariant Collect(ManifestArtifacts(root, Filter(Missing(before), ordered[..k]))) == Ok(found)
      {
        SupplementStep(root, before, ordered, k);
        if Missing(before)(ordered[k]) {
          var artifact := ManifestArtifact(root, ordered[k]);
          if artifact.Err? {
            SupplementFails(root, before, ordered, k);
            return false;
          }
          SupplementGrows(root, Filter(Missing(before), ordered[..k]), found, ordered[k], artifact.value);
          artifacts := Some(artifacts.value + [artifact.value]);
          ConcatSnoc(before, found, artifact.value);
          found := found + [artifact.value];
        }
      }
      assert ordered[..|ordered|] == ordered;
      return true;
    }

    /** Judges every artifact in place and collects what is kept, excluded and identified. */
    method JudgeArtifacts(root: Root, ghost d: Document)
      returns (ok: bool, retained: seq<Entry>, excluded: seq<string>, observed: multiset<Identity>, concluded: nat)
      requires artifacts.Some?
      modifies this`artifacts
      ensures artifacts.Some? && PartlyJudged(root, old(artifacts.value), artifacts.value)
      ensures !ok ==>
        var judged := Collect(Judgements(root, old(artifacts.value)));
        judged.Err? || Settle(root, d, judged.value).Err?
      ensures ok ==> Collect(Judgements(root, old(artifacts.value))).Ok?
      ensures ok ==> var verdicts := Collect(Judgements(root, old(artifacts.value))).value;
        && !Repeats(ExcludedIds(verdicts))
        && retained == Retained(verdicts) && excluded == ExcludedIds(verdicts)
        && observed == multiset(Identities(verdicts)) && concluded == |Identities(verdicts)|
        && |verdicts| == |old(artifacts.value)|
        && artifacts == Some(InPlace(old(artifacts.value), verdicts))
    {
      var entries := artifacts.value;
      ghost var verdicts: seq<Verdict> := [];
      retained, excluded, observed, concluded := [], [], multiset{}, 0;
      assert InPlace(entries, verdicts) == entries;
      for i := 0 to |entries|
        invariant |verdicts| == i && Judged(root, entries[..i], verdicts) && artifacts.Some?
        invariant Tallied(entries, verdicts, artifacts.value, retained, excluded, observed, concluded)
      {
        var judged := Judge(root, entries[i]);
        if judged.Err? {
          JudgedFails(root, entries, verdicts);
          return false, [], [], multiset{}, 0;
        }
        var v := judged.value;
        JudgedSnoc(root, entries, verdicts, v);
        if v.Excluded? {
          if v.id in excluded {
            FoundAgain(verdicts, v);
            RepeatedFails(root, entries, verdicts + [v], d);
            return false, [], [], multiset{}, 0;
          }
          TallyExcluded(entries, verdicts, v, artifacts.value, retained, excluded, observed, concluded);
          excluded := excluded + [v.id];
        } else {
          TallyKept(entries, verdicts, v, artifacts.value, retained, excluded, observed, concluded);
          artifacts := Some(artifacts.value[i := Object(v.kept)]);
          retained := retained + [Object(v.kept)];
          if v.FirstParty? {
            observed, concluded := observed + multiset{v.identity}, concluded + 1;
          }
        }
        verdicts := verdicts + [v];
      }
      assert entries[..|entries|] == entries;
      CollectValues(Judgements(root, entries), verdicts);
      ok := true;
    }

    // Removes the private tools, if there were any, and every relationship that touches one.
    method PruneTools(retained: seq<Entry>, excluded: seq<string>) returns (ok: bool)
      modifies this`artifacts, this`relationships
      ensures excluded == [] ==> ok && artifacts == old(artifacts) && relationships == old(relationships)
      ensures excluded != [] ==> (ok <==>
        && !(exists i :: 0 <= i < |retained| && Names(retained[i], excluded)) && old(relationships).Some?
        && !(exists i :: 0 <= i < |old(relationships).value| && old(relationships).value[i].NotARelationship?))
      ensures excluded != [] && ok ==>
        artifacts == Some(retained) && relationships == Some(Filter(Untouched(excluded), old(relationships).value))
      ensures !ok ==> relationships == old(relationships)
    {
      if excluded == [] {
        return true;
      }
      if (exists i :: 0 <= i < |retained| && Names(retained[i], excluded))
         || relationships.None?
         || (exists i :: 0 <= i < |relationships.value| && relationships.value[i].NotARelationship?) {
        return false;
      }
      relationships := Some(Filter(Untouched(excluded), relationships.value));
      artifacts := Some(retained);
      return true;
    }

    // The end of the conclusion: the inventory must match before anything is removed.
    method SettleDocument(root: Root, retained: seq<Entry>, excluded: seq<string>, observed: multiset<Identity>, concluded: nat,
        ghost d: Document, ghost entries: seq<Entry>, ghost verdicts: seq<Verdict>) returns (r: Done<nat>)
      requires |verdicts| == |entries| && artifacts == Some(InPlace(entries, verdicts)) && !Repeats(ExcludedIds(verdicts))
      requires retained == Retained(verdicts) && excluded == ExcludedIds(verdicts)
      requires observed == multiset(Identities(verdicts)) && concluded == |Identities(verdicts)|
      requires descriptor == d.descriptor && relationships == d.relationships && extra == d.extra
      modifies this`artifacts, this`relationships
      ensures r.Ok? <==> Settle(root, d, verdicts).Ok?
      ensures r.Ok? ==> Settle(root, d, verdicts) == Ok((Value(), r.value))
      ensures r.Err? ==> relationships == old(relationships)
    {
      if root.lockIdentities.None? || observed != Expected(root) {
        return Err(Failed);
      }
      if excluded == [] { InPlaceIsRetained(entries, verdicts); }
      var ok := PruneTools(retained, excluded);
      return if ok then Ok(concluded) else Err(Failed);
    }

    /** The tool's operation on a document: on success the document is the concluded one, with every
        artifact of the project licensed by its manifest, and the result counts them; on failure
        nothing but artifacts was touched. */
    method Conclude(root: Root) returns (r: Done<nat>)
      modifies this
      ensures r.Ok? <==> SbomConclusion.Conclude(root, old(Value())).Ok?
      ensures r.Ok? ==> SbomConclusion.Conclude(root, old(Value())) == Ok((Value(), r.value))
      ensures r.Ok? ==> artifacts.Some? && Meaning.AllLicensed(root, artifacts.value)
      ensures r.Err? ==> descriptor == old(descriptor) && relationships == old(relationships) && extra == old(extra)
    {
      ghost var d := Value();
      if descriptor != Some(("syft", "1.46.0")) || artifacts.None? {
        return Err(Failed);
      }
      var supplemented := SupplementPython(root);
      if !supplemented {
        return Err(Failed);
      }
      var entries := artifacts.value;
      var ok, retained, excluded, observed, concluded := JudgeArtifacts(root, d);
      if !ok {
        return Err(Failed);
      }
      ghost var verdicts := Collect(Judgements(root, entries)).value;
      r := SettleDocument(root, retained, excluded, observed, concluded, d, entries, verdicts);
      if r.Ok? { Meaning.ConcludedIsLicensed(root, d, Value(), r.value); }
    }
  }
}
