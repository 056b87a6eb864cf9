/** What merge_header_fields of core/metadata_parser.py promises about the
    header it builds: values already in the target survive, missing required
    fields are filled from the source or the fallbacks, and the result lists
    each required field first, in the caller's order, then every other field
    once, with continuation lines indented. */
module HeaderMerge {
  import opened Wrappers
  import opened Text
  import opened Dict
  import opened MetadataParser

  lemma GetHasKey(d: Dict, k: string)
    ensures Get(d, k).Some? <==> HasKey(d, k)
  {
    if HasKey(d, k) {
      var i :| 0 <= i < |d| && d[i].key == k;
      assert IndexOf(d, k).Some?;
    }
  }

  lemma LowerAllCons(names: seq<string>)
    requires names != []
    ensures LowerAll(names) == {Lower(names[0])} + LowerAll(names[1..])
  {
    forall k | k in LowerAll(names)
      ensures k in {Lower(names[0])} + LowerAll(names[1..])
    {
      var i :| 0 <= i < |names| && Lower(names[i]) == k;
      if i > 0 {
        assert names[1..][i - 1] == names[i];
      }
    }
    forall k | k in LowerAll(names[1..])
      ensures k in LowerAll(names)
    {
      var i :| 0 <= i < |names[1..]| && Lower(names[1..][i]) == k;
      assert names[i + 1] == names[1..][i];
    }
  }

  /** The fill loop of merge_header_fields: a key the dict holds keeps its
      value, a required key it lacks gets the required value, and no other
      key appears. */
  lemma {:induction false} FillRequiredGet(merged: Dict, source: Dict, names: seq<string>, platformName: string, k: string)
    ensures Get(FillRequired(merged, source, names, platformName), k) ==
      if HasKey(merged, k) then Get(merged, k)
      else if k in LowerAll(names) then Some(RequiredValue(source, k, platformName))
      else None
    decreases |names|
  {
    GetHasKey(merged, k);
    if names != [] {
      var f := Lower(names[0]);
      var next := if HasKey(merged, f) then merged else Put(merged, f, RequiredValue(source, f, platformName));
      FillRequiredGet(next, source, names[1..], platformName, k);
      LowerAllCons(names);
      GetHasKey(next, k);
    }
  }

  /** merge_header_fields never changes a value the target header already
      has; a required field the target lacks takes the source's value, else
      the fallback (the platform name or "Unknown Collection" for
      `collection`, "" for the others); nothing else is added. */
  lemma MergeFieldsGet(target: string, source: string, names: seq<string>, platformName: string, k: string)
    ensures Get(MergeFields(target, source, names, platformName), k) ==
      match Get(ParseHeaderFields(target), k)
      case Some(v) => Some(v)
      case None =>
        if k in LowerAll(names) then Some(RequiredValue(ParseHeaderFields(source), k, platformName)) else None
  {
    var t := ParseHeaderFields(target);
    GetHasKey(t, k);
    FillRequiredGet(t, ParseHeaderFields(source), names, platformName, k);
  }

  /** The fallback values of a required field the source header lacks too. */
  lemma RequiredValueFallback(source: Dict, f: string, platformName: string)
    requires Get(source, f).None?
    ensures f == "collection" && platformName != [] ==> RequiredValue(source, f, platformName) == platformName
    ensures f == "collection" && platformName == [] ==> RequiredValue(source, f, platformName) == UnknownCollection
    ensures f != "collection" ==> RequiredValue(source, f, platformName) == []
  {
  }

  /** With every required field present, the first part of the output holds
      one line per requested name, in the caller's order and spelling, with
      the merged value of its lowercased key. */
  lemma {:induction false} RequiredLinesShape(names: seq<string>, merged: Dict)
    requires forall i :: 0 <= i < |names| ==> HasKey(merged, Lower(names[i]))
    ensures |RequiredLines(names, merged)| == |names|
    ensures forall i :: 0 <= i < |names| ==>
      RequiredLines(names, merged)[i].key == names[i]
      && Get(merged, Lower(names[i])) == Some(RequiredLines(names, merged)[i].value)
  {
    if names != [] {
      GetHasKey(merged, Lower(names[0]));
      forall i | 0 <= i < |names[1..]|
        ensures HasKey(merged, Lower(names[1..][i]))
      {
        assert names[1..][i] == names[i + 1];
      }
      RequiredLinesShape(names[1..], merged);
      var rest := RequiredLines(names[1..], merged);
      assert RequiredLines(names, merged) == [Entry(names[0], Get(merged, Lower(names[0])).value)] + rest;
      forall i | 1 <= i < |names|
        ensures RequiredLines(names, merged)[i].key == names[i]
          && Get(merged, Lower(names[i])) == Some(RequiredLines(names, merged)[i].value)
      {
        assert names[1..][i - 1] == names[i];
      }
    }
  }

  /** The second part of the output: exactly the merged fields whose key is
      not a required one, in dict order. */
  lemma {:induction false} OtherLinesMembers(merged: Dict, processed: set<string>)
    ensures forall e :: e in OtherLines(merged, processed) <==> e in merged && e.key !in processed
  {
    if merged != [] {
      OtherLinesMembers(merged[1..], processed);
      assert merged == [merged[0]] + merged[1..];
    }
  }

  /** Each other field appears once: a dict without repeated keys gives a
      second part without repeated keys. */
  lemma {:induction false} OtherLinesUnique(merged: Dict, processed: set<string>)
    requires UniqueKeys(merged)
    ensures UniqueKeys(OtherLines(merged, processed))
  {
    if merged != [] {
      OtherLinesUnique(merged[1..], processed);
      OtherLinesMembers(merged[1..], processed);
      var rest := OtherLines(merged[1..], processed);
      forall e | e in rest
        ensures e.key != merged[0].key
      {
        var j :| 0 <= j < |merged[1..]| && merged[1..][j] == e;
        assert merged[j + 1] == e;
      }
    }
  }

  /** The filled dict holds every required field. */
  lemma MergeFieldsHasRequired(target: string, source: string, names: seq<string>, platformName: string)
    ensures forall i :: 0 <= i < |names| ==> HasKey(MergeFields(target, source, names, platformName), Lower(names[i]))
  {
    var merged := MergeFields(target, source, names, platformName);
    forall i | 0 <= i < |names|
      ensures HasKey(merged, Lower(names[i]))
    {
      MergeFieldsGet(target, source, names, platformName, Lower(names[i]));
      assert Lower(names[i]) in LowerAll(names);
      GetHasKey(merged, Lower(names[i]));
    }
  }

  /** The lines merge_header_fields writes: first one per required name, in
      order, then the other fields of the merged dict, each once. */
  lemma MergedEntriesShape(target: string, source: string, names: seq<string>, platformName: string)
    ensures var entries := MergedEntries(target, source, names, platformName);
      var merged := MergeFields(target, source, names, platformName);
      && |names| <= |entries|
      && (forall i :: 0 <= i < |names| ==>
            entries[i].key == names[i] && Get(merged, Lower(names[i])) == Some(entries[i].value))
      && (forall e :: e in entries[|names|..] <==> e in merged && e.key !in LowerAll(names))
      && UniqueKeys(entries[|names|..])
  {
    var merged := MergeFields(target, source, names, platformName);
    MergeFieldsHasRequired(target, source, names, platformName);
    RequiredLinesShape(names, merged);
    OtherLinesMembers(merged, LowerAll(names));
    OtherLinesUnique(merged, LowerAll(names));
    var entries := MergedEntries(target, source, names, platformName);
    assert entries[|names|..] == OtherLines(merged, LowerAll(names));
  }

  /** A field's continuation lines are indented by two spaces: rendering
      splits the value at each '\n' and joins the pieces with "\n  ". */
  lemma {:induction false} IndentSplit(v: string)
    ensures Indent(v) == Join(SplitOn(v, "\n"), "\n  ")
    decreases |v|
  {
    if v != [] {
      IndentSplit(v[1..]);
      var rest := SplitOn(v[1..], "\n");
      if v[0] == '\n' {
        assert v[..1] == "\n";
        assert SplitOn(v, "\n") == [[]] + rest;
        assert ([[]] + rest)[1..] == rest;
      } else {
        assert v[..1] != "\n";
        assert SplitOn(v, "\n") == [[v[0]] + rest[0]] + rest[1..];
        if |rest| > 1 {
          assert ([[v[0]] + rest[0]] + rest[1..])[1..] == rest[1..];
        }
      }
    }
  }

  /** The comment filter drops exactly the lines that start with '#' once
      stripped and keeps the others, blank ones included. */
  lemma {:induction false} NonCommentLinesMembers(lines: seq<string>)
    ensures forall l :: l in NonCommentLines(lines) <==> l in lines && !StartsWith(Strip(l), "#")
  {
    if lines != [] {
      NonCommentLinesMembers(lines[1..]);
      assert lines == [lines[0]] + lines[1..];
    }
  }
}
