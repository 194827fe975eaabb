/** The renderer of src/renderer.js: the dropped files, the rule list, the state of the
    execute control, and the execute handler that copies each file into the folder of the
    first matching rule whose copy succeeds. */
module Sorter {
  import opened Wrappers
  import opened PngText
  import opened Text

  /** A sorting rule: files whose metadata mentions `keyword` go to `folder`. */
  datatype Rule = Rule(keyword: string, folder: string)

  /** A dropped PNG file. */
  datatype File = File(name: string, path: string)

  /** What the main process's sort-file handler answers: the copy was made, or it failed with
      an error message; or the call itself threw. */
  datatype CopyResult = Copied | CopyFailed(error: string) | CopyThrew

  /** The main process's read-png-metadata handler: the walker's map, or None when the call
      threw. */
  type MetadataReader = string -> Option<Metadata>

  /** JSON.stringify on a metadata object. */
  type Serializer = Metadata -> string

  /** The main process's sort-file handler, for a file path and a target folder. */
  type Copier = (string, string) -> CopyResult

  /** What became of one file: copied by the rule at `index`, copied nowhere, or abandoned
      when a call threw (the handler's catch). */
  datatype FileOutcome = SortedBy(index: nat) | Unsorted | Failed

  /** What the execute handler did: refused for lack of files or of rules, or ran. */
  datatype Run = NoFiles | NoRules | Ran(outcomes: seq<FileOutcome>, sortedCount: nat, unsortedCount: nat)

  /** The text the rules are matched against: the serialised metadata, lower-cased. */
  function Blob(metadata: Metadata, serialize: Serializer): (blob: string)
    ensures IsLower(blob)
  {
    LowerIsLower(serialize(metadata));
    Lower(serialize(metadata))
  }

  /** A rule matches when its lower-cased keyword occurs in the blob. */
  ghost predicate Matches(rule: Rule, blob: string)
  {
    IsSubstring(Lower(rule.keyword), blob)
  }

  /** The search through the rules from index `i`: a rule that does not match, or whose copy
      failed, passes on to the next one; the first copy that succeeds or throws ends it. */
  ghost function Route(rules: seq<Rule>, i: nat, blob: string, path: string, copy: Copier): FileOutcome
    requires i <= |rules|
    decreases |rules| - i
  {
    if i == |rules| then Unsorted
    else if Matches(rules[i], blob) && copy(path, rules[i].folder) == Copied then SortedBy(i)
    else if Matches(rules[i], blob) && copy(path, rules[i].folder) == CopyThrew then Failed
    else Route(rules, i + 1, blob, path, copy)
  }

  /** The rule at `k` does not end the search: it does not match, or its copy failed. */
  ghost predicate PassesOn(rules: seq<Rule>, k: nat, blob: string, path: string, copy: Copier)
    requires k < |rules|
  {
    !Matches(rules[k], blob) || copy(path, rules[k].folder).CopyFailed?
  }

  /** The file goes to the rule at `j` exactly when that rule matches and its copy succeeds,
      and every rule between `i` and `j` passes on. */
  lemma {:induction false} RouteSorted(rules: seq<Rule>, i: nat, j: nat, blob: string, path: string, copy: Copier)
    requires i <= |rules|
    ensures Route(rules, i, blob, path, copy) == SortedBy(j) <==>
              i <= j < |rules| && Matches(rules[j], blob) && copy(path, rules[j].folder) == Copied
              && forall k :: i <= k < j ==> PassesOn(rules, k, blob, path, copy)
    decreases |rules| - i
  {
    if i < |rules| {
      RouteSorted(rules, i + 1, j, blob, path, copy);
      if i < j < |rules| {
        assert (forall k :: i <= k < j ==> PassesOn(rules, k, blob, path, copy)) <==>
               PassesOn(rules, i, blob, path, copy) && forall k :: i + 1 <= k < j ==> PassesOn(rules, k, blob, path, copy);
      }
    }
  }

  /** The file is copied nowhere exactly when every rule from `i` on passes on. */
  lemma {:induction false} RouteUnsorted(rules: seq<Rule>, i: nat, blob: string, path: string, copy: Copier)
    requires i <= |rules|
    ensures Route(rules, i, blob, path, copy) == Unsorted <==>
              forall k :: i <= k < |rules| ==> PassesOn(rules, k, blob, path, copy)
    decreases |rules| - i
  {
    if i < |rules| {
      RouteUnsorted(rules, i + 1, blob, path, copy);
      assert (forall k :: i <= k < |rules| ==> PassesOn(rules, k, blob, path, copy)) <==>
             PassesOn(rules, i, blob, path, copy) && forall k :: i + 1 <= k < |rules| ==> PassesOn(rules, k, blob, path, copy);
    }
  }

  /** The inner loop of the execute handler: try the rules in order, stop at the first copy
      that succeeds, go on after a copy that fails. */
  method RouteFile(rules: seq<Rule>, blob: string, path: string, copy: Copier) returns (outcome: FileOutcome)
    ensures outcome == Route(rules, 0, blob, path, copy)
  {
    var i := 0;
    while i < |rules|
      invariant i <= |rules|
      invariant Route(rules, 0, blob, path, copy) == Route(rules, i, blob, path, copy)
    {
      var rule := rules[i];
      if Includes(blob, Lower(rule.keyword)) {
        var result := copy(path, rule.folder);
        if result.Copied? {
          return SortedBy(i);
        } else if result.CopyThrew? {
          return Failed;
        }
      }
      i := i + 1;
    }
    return Unsorted;
  }

  /** What becomes of one file: a read that throws abandons it; otherwise its blob is routed. */
  ghost function OutcomeOf(file: File, rules: seq<Rule>, read: MetadataReader, serialize: Serializer,
                           copy: Copier): FileOutcome
  {
    match read(file.path)
    case None => Failed
    case Some(metadata) => Route(rules, 0, Blob(metadata, serialize), file.path, copy)
  }

  /** How many outcomes are of each kind, counted from the last one back. */
  function CountSorted(os: seq<FileOutcome>): nat
  {
    if os == [] then 0 else CountSorted(os[..|os| - 1]) + (if os[|os| - 1].SortedBy? then 1 else 0)
  }

  function CountUnsorted(os: seq<FileOutcome>): nat
  {
    if os == [] then 0 else CountUnsorted(os[..|os| - 1]) + (if os[|os| - 1].Unsorted? then 1 else 0)
  }

  function CountFailed(os: seq<FileOutcome>): nat
  {
    if os == [] then 0 else CountFailed(os[..|os| - 1]) + (if os[|os| - 1].Failed? then 1 else 0)
  }

  /** Every file is counted once: as sorted, as unsorted, or (when a call threw) as neither.
      So the two counters never add up to more than the number of files. */
  lemma {:induction false} CountsPartition(os: seq<FileOutcome>)
    ensures CountSorted(os) + CountUnsorted(os) + CountFailed(os) == |os|
    ensures CountSorted(os) + CountUnsorted(os) <= |os|
  {
    if os != [] {
      CountsPartition(os[..|os| - 1]);
    }
  }

  /** A file that is not abandoned is counted in exactly one of the two counters. */
  lemma {:induction false} CountsWithoutFailures(os: seq<FileOutcome>)
    requires forall i :: 0 <= i < |os| ==> !os[i].Failed?
    ensures CountSorted(os) + CountUnsorted(os) == |os|
  {
    if os != [] {
      CountsWithoutFailures(os[..|os| - 1]);
    }
  }

  /** The rule list after the add button, given the two trimmed inputs: the rule appended at
      the end when both strings are non-empty (truthy), otherwise the same list. */
  function WithRule(rules: seq<Rule>, keyword: string, folder: string): (r: seq<Rule>)
    ensures |r| == |rules| || |r| == |rules| + 1
    ensures r[..|rules|] == rules
    ensures |r| == |rules| + 1 <==> keyword != [] && folder != []
    ensures |r| == |rules| + 1 ==> r[|rules|] == Rule(keyword, folder)
  {
    if keyword != [] && folder != [] then rules + [Rule(keyword, folder)] else rules
  }

  /** A rule added from the inputs has a keyword and a folder that neither start nor end with
      white space, and an input made only of white space adds nothing. */
  lemma AddedRuleTrimmed(rules: seq<Rule>, keywordInput: string, folderInput: string)
    ensures var r := WithRule(rules, Trim(keywordInput), Trim(folderInput));
            |r| == |rules| + 1 ==> Trim(r[|rules|].keyword) == r[|rules|].keyword && Trim(r[|rules|].folder) == r[|rules|].folder
    ensures (forall k :: 0 <= k < |keywordInput| ==> IsSpace(keywordInput[k])) ==>
              WithRule(rules, Trim(keywordInput), Trim(folderInput)) == rules
  {
    TrimIdempotent(keywordInput);
    TrimIdempotent(folderInput);
    TrimBlank(keywordInput);
  }

  /** rules.splice(index, 1): the rule at `index` is removed and the others keep their order;
      an index past the end removes nothing. */
  function Without(rules: seq<Rule>, index: nat): (r: seq<Rule>)
    ensures index < |rules| ==> |r| == |rules| - 1
    ensures index < |rules| ==> forall i :: 0 <= i < |r| ==> r[i] == rules[if i < index then i else i + 1]
    ensures index < |rules| ==> multiset(r) + multiset{rules[index]} == multiset(rules)
    ensures index >= |rules| ==> r == rules
  {
    if index < |rules| then
      assert rules == rules[..index] + [rules[index]] + rules[index + 1..];
      rules[..index] + rules[index + 1..]
    else rules
  }

  /** The renderer's state: the dropped files, the rule list and the execute control. */
  class Sorter {
    var files: seq<File>
    var rules: seq<Rule>
    var executeDisabled: bool

    /** The execute control is disabled exactly when there are no files or no rules. */
    predicate ControlCurrent()
      reads this
    {
      executeDisabled <==> |files| == 0 || |rules| == 0
    }

    /** The page at start-up: no files, the rules loaded from storage, execute disabled. */
    constructor(saved: seq<Rule>)
      ensures files == [] && rules == saved && executeDisabled
      ensures ControlCurrent()
    {
      files := [];
      rules := saved;
      executeDisabled := true;
    }

    /** handleFiles: the dropped files replace the list, and the control is recomputed. */
    method HandleFiles(fileList: seq<File>)
      modifies this
      ensures files == fileList && rules == old(rules)
      ensures ControlCurrent()
    {
      files := fileList;
      executeDisabled := |files| == 0 || |rules| == 0;
    }

    /** The add button: both inputs are trimmed; when both are non-empty the rule is appended
        and the control recomputed, otherwise nothing changes (the page shows an alert). */
    method AddRule(keywordInput: string, folderInput: string) returns (added: bool)
      requires ControlCurrent()
      modifies this
      ensures added <==> Trim(keywordInput) != [] && Trim(folderInput) != []
      ensures rules == WithRule(old(rules), Trim(keywordInput), Trim(folderInput)) && files == old(files)
      ensures !added ==> executeDisabled == old(executeDisabled)
      ensures ControlCurrent()
    {
      var keyword := Trim(keywordInput);
      var folder := Trim(folderInput);
      if keyword != [] && folder != [] {
        rules := rules + [Rule(keyword, folder)];
        executeDisabled := |files| == 0 || |rules| == 0;
        added := true;
      } else {
        added := false;
      }
    }

    /** The delete button of the rule at `index`: splice it out and recompute the control. */
    method DeleteRule(index: nat)
      modifies this
      ensures rules == Without(old(rules), index) && files == old(files)
      ensures ControlCurrent()
    {
      if index < |rules| {
        rules := rules[..index] + rules[index + 1..];
      }
      executeDisabled := |files| == 0 || |rules| == 0;
    }

    /** The execute handler: refuse without files or without rules; otherwise route every file
        in order and count the sorted and the unsorted ones. It changes no field. */
    method Execute(read: MetadataReader, serialize: Serializer, copy: Copier) returns (run: Run)
      ensures |files| == 0 ==> run == NoFiles
      ensures |files| > 0 && |rules| == 0 ==> run == NoRules
      ensures |files| > 0 && |rules| > 0 ==> run.Ran? && |run.outcomes| == |files|
      ensures run.Ran? ==> forall i :: 0 <= i < |files| ==>
                run.outcomes[i] == OutcomeOf(files[i], rules, read, serialize, copy)
      ensures run.Ran? ==> run.sortedCount == CountSorted(run.outcomes)
                           && run.unsortedCount == CountUnsorted(run.outcomes)
    {
      if |files| == 0 {
        return NoFiles;
      }
      if |rules| == 0 {
        return NoRules;
      }
      var sortedCount, unsortedCount := 0, 0;
      var outcomes: seq<FileOutcome> := [];
      for n := 0 to |files|
        invariant |outcomes| == n
        invariant forall i :: 0 <= i < n ==> outcomes[i] == OutcomeOf(files[i], rules, read, serialize, copy)
        invariant sortedCount == CountSorted(outcomes) && unsortedCount == CountUnsorted(outcomes)
      {
        var file := files[n];
        var outcome := Failed;
        var metadata := read(file.path);
        if metadata.Some? {
          var metadataText := Lower(serialize(metadata.value));
          outcome := RouteFile(rules, metadataText, file.path, copy);
          if outcome.SortedBy? {
            sortedCount := sortedCount + 1;
          } else if outcome.Unsorted? {
            unsortedCount := unsortedCount + 1;
          }
        }
        assert (outcomes + [outcome])[..n] == outcomes;
        outcomes := outcomes + [outcome];
      }
      return Ran(outcomes, sortedCount, unsortedCount);
    }
  }

  /** JSON.stringify writes every member of the object whose key and value need no escape. */
  ghost predicate ListsMembers(serialize: Serializer)
  {
    forall metadata: Metadata, key :: key in metadata && NeedsNoEscape(key) && NeedsNoEscape(metadata[key]) ==>
      IsSubstring(Member(key, metadata[key]), serialize(metadata))
  }

  /** A rule whose keyword occurs, ignoring case, in a key or a value of the metadata (when
      neither needs an escape) matches the file. */
  lemma {:induction false} FragmentMatches(rule: Rule, metadata: Metadata, key: string, serialize: Serializer)
    requires ListsMembers(serialize)
    requires key in metadata && NeedsNoEscape(key) && NeedsNoEscape(metadata[key])
    requires IsSubstring(Lower(rule.keyword), Lower(key)) || IsSubstring(Lower(rule.keyword), Lower(metadata[key]))
    ensures Matches(rule, Blob(metadata, serialize))
  {
    var member := Member(key, metadata[key]);
    var json := serialize(metadata);
    var part := if IsSubstring(Lower(rule.keyword), Lower(key)) then key else metadata[key];
    assert IsSubstring(part, member);
    var i :| OccursAt(part, member, i);
    LowerOccurs(part, member, i);
    var j :| OccursAt(member, json, j);
    LowerOccurs(member, json, j);
    SubstringTrans(Lower(part), Lower(member), Lower(json));
    SubstringTrans(Lower(rule.keyword), Lower(part), Lower(json));
  }

  /** A rule with an empty keyword matches every file. */
  lemma EmptyKeywordMatches(folder: string, blob: string)
    ensures Matches(Rule("", folder), blob)
  {
    assert OccursAt("", blob, 0);
  }

  /** Upper and lower case do not matter: rules whose keywords lower-case alike match the
      same files, and so do metadata whose serialisations lower-case alike. */
  lemma MatchIgnoresCase(rule: Rule, other: string, metadata: Metadata, otherMetadata: Metadata, serialize: Serializer)
    requires Lower(other) == Lower(rule.keyword)
    ensures Matches(rule, Blob(metadata, serialize)) <==> Matches(Rule(other, rule.folder), Blob(metadata, serialize))
    ensures Lower(serialize(metadata)) == Lower(serialize(otherMetadata)) ==>
              (Matches(rule, Blob(metadata, serialize)) <==> Matches(rule, Blob(otherMetadata, serialize)))
    ensures Matches(rule, Blob(metadata, serialize)) <==> IsSubstring(Lower(rule.keyword), Lower(Lower(serialize(metadata))))
  {
    LowerIsLower(serialize(metadata));
  }
}
