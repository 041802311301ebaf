/** What the pass over all files promises: messages come out in file order,
    the seen sets hold exactly the keys of earlier files, a duplicate is
    reported on every occurrence after the first, and the run ends with no
    errors exactly when the data set is valid by an independent definition. */
module ContributorRun {
  import opened Optional
  import opened JsText
  import opened JsonValue
  import opened ContributorRules
  import opened ContributorProperties

  /** The messages the pass gives the file at position `i`. */
  function ErrorsOfFile(files: seq<ContributorFile>, i: nat): seq<Err>
    requires i < |files|
  {
    FileErrors(Run(Initial, files[..i]), files[i])
  }

  /** What the file at position `i` adds to each part of the state. */
  lemma RunSnocParts(files: seq<ContributorFile>, i: nat)
    requires i < |files|
    ensures Run(Initial, files[..i + 1]).errors == Run(Initial, files[..i]).errors + ErrorsOfFile(files, i)
    ensures Run(Initial, files[..i + 1]).seenNames == Run(Initial, files[..i]).seenNames + KeySet(NameKey(files[i]))
    ensures Run(Initial, files[..i + 1]).seenGithub == Run(Initial, files[..i]).seenGithub + KeySet(HandleKey(files[i]))
  {
    RunSnoc(files, i);
  }

  /** The same for the last file of `files`. */
  lemma RunLast(files: seq<ContributorFile>)
    requires files != []
    ensures var n := |files| - 1;
      && Run(Initial, files).errors == Run(Initial, files[..n]).errors + ErrorsOfFile(files, n)
      && Run(Initial, files).seenNames == Run(Initial, files[..n]).seenNames + KeySet(NameKey(files[n]))
      && Run(Initial, files).seenGithub == Run(Initial, files[..n]).seenGithub + KeySet(HandleKey(files[n]))
  {
    var n := |files| - 1;
    RunSnocParts(files, n);
    assert files[..n + 1] == files;
  }

  /** The messages of a run over a prefix of the files are a prefix of the
      messages of the run over all of them. */
  lemma {:induction false} RunPrefixErrors(files: seq<ContributorFile>, n: nat)
    requires n <= |files|
    ensures Run(Initial, files[..n]).errors <= Run(Initial, files).errors
    decreases |files|
  {
    if n == |files| {
      assert files[..n] == files;
    } else {
      var m := |files| - 1;
      assert files[..m][..n] == files[..n];
      RunPrefixErrors(files[..m], n);
      RunLast(files);
    }
  }

  /** The keys the files add to a seen set, in file order. */
  function NameKeys(files: seq<ContributorFile>): (keys: seq<Option<string>>)
    ensures |keys| == |files|
    ensures forall j :: 0 <= j < |files| ==> keys[j] == NameKey(files[j])
  {
    seq(|files|, j requires 0 <= j < |files| => NameKey(files[j]))
  }

  function HandleKeys(files: seq<ContributorFile>): (keys: seq<Option<string>>)
    ensures |keys| == |files|
    ensures forall j :: 0 <= j < |files| ==> keys[j] == HandleKey(files[j])
  {
    seq(|files|, j requires 0 <= j < |files| => HandleKey(files[j]))
  }

  /** The set a run of additions builds from `keys`. */
  function Collected(keys: seq<Option<string>>): set<string>
    decreases |keys|
  {
    if keys == [] then {} else Collected(keys[..|keys| - 1]) + KeySet(keys[|keys| - 1])
  }

  lemma {:induction false} CollectedHolds(keys: seq<Option<string>>, x: string)
    ensures x in Collected(keys) <==> exists j :: 0 <= j < |keys| && keys[j] == Some(x)
    decreases |keys|
  {
    if keys != [] {
      var n := |keys| - 1;
      CollectedHolds(keys[..n], x);
      assert forall j :: 0 <= j < n ==> keys[..n][j] == keys[j];
    }
  }

  lemma {:induction false} RunSeen(files: seq<ContributorFile>)
    ensures Run(Initial, files).seenNames == Collected(NameKeys(files))
    ensures Run(Initial, files).seenGithub == Collected(HandleKeys(files))
    decreases |files|
  {
    if files != [] {
      var n := |files| - 1;
      RunSeen(files[..n]);
      RunLast(files);
      assert NameKeys(files)[..n] == NameKeys(files[..n]);
      assert HandleKeys(files)[..n] == HandleKeys(files[..n]);
    }
  }

  /** The names seen after a run are the names of the files run over. */
  lemma SeenNamesOfRun(files: seq<ContributorFile>, x: string)
    ensures x in Run(Initial, files).seenNames
            <==> exists j :: 0 <= j < |files| && NameKey(files[j]) == Some(x)
  {
    RunSeen(files);
    CollectedHolds(NameKeys(files), x);
  }

  /** The handles seen after a run are the handles of the files run over. */
  lemma SeenHandlesOfRun(files: seq<ContributorFile>, x: string)
    ensures x in Run(Initial, files).seenGithub
            <==> exists j :: 0 <= j < |files| && HandleKey(files[j]) == Some(x)
  {
    RunSeen(files);
    CollectedHolds(HandleKeys(files), x);
  }

  /** A valid name is reported as a duplicate exactly when an earlier file
      has the same trimmed, lower-case name; the first file with a name is
      never reported. The message quotes the name as written. */
  lemma DuplicateNameRule(files: seq<ContributorFile>, i: nat)
    requires i < |files| && NameKey(files[i]).Some?
    ensures Only(ErrorsOfFile(files, i), NameRules)
            == if exists j :: 0 <= j < i && NameKey(files[j]) == NameKey(files[i])
               then [Err(files[i].name, DuplicateName, Get(Entry(files[i]).value, "name").value.s)]
               else []
  {
    var x := NameKey(files[i]).value;
    NameRule(Run(Initial, files[..i]), files[i]);
    SeenNamesOfRun(files[..i], x);
    if exists j :: 0 <= j < i && NameKey(files[j]) == NameKey(files[i]) {
      var j :| 0 <= j < i && NameKey(files[j]) == NameKey(files[i]);
      assert files[..i][j] == files[j];
    }
    if exists j :: 0 <= j < i && NameKey(files[..i][j]) == Some(x) {
      var j :| 0 <= j < i && NameKey(files[..i][j]) == Some(x);
      assert files[j] == files[..i][j];
    }
  }

  /** A handle that is a non-blank string is reported as a duplicate exactly
      when an earlier file has the same trimmed, lower-case handle, whether
      or not either handle has the form of a GitHub user name; the format
      message, if any, follows it. */
  lemma DuplicateHandleRule(files: seq<ContributorFile>, i: nat)
    requires i < |files| && HandleKey(files[i]).Some?
    ensures var github := Get(Entry(files[i]).value, "github").value.s;
            Only(ErrorsOfFile(files, i), GithubRules)
            == (if exists j :: 0 <= j < i && HandleKey(files[j]) == HandleKey(files[i])
                then [Err(files[i].name, DuplicateGithub, github)]
                else [])
               + (if MatchesHandlePattern(Trim(github)) then [] else [Err(files[i].name, InvalidGithub, github)])
  {
    var x := HandleKey(files[i]).value;
    GithubRule(Run(Initial, files[..i]), files[i]);
    SeenHandlesOfRun(files[..i], x);
    if exists j :: 0 <= j < i && HandleKey(files[j]) == HandleKey(files[i]) {
      var j :| 0 <= j < i && HandleKey(files[j]) == HandleKey(files[i]);
      assert files[..i][j] == files[j];
    }
    if exists j :: 0 <= j < i && HandleKey(files[..i][j]) == Some(x) {
      var j :| 0 <= j < i && HandleKey(files[..i][j]) == Some(x);
      assert files[j] == files[..i][j];
    }
  }

  // ---------------------------------------------------------------------
  // Validity of the whole data set, defined without the pass

  /** A property that is absent, or a string that is not blank. */
  predicate AbsentOrNonBlank(fields: seq<Field>, key: string) {
    Get(fields, key).None? || IsNonBlankString(Get(fields, key))
  }

  /** A file that passes every check that looks at it alone: a JSON object
      with a non-blank string name, a github handle (if any) that is a
      non-blank string whose trimmed form is a GitHub user name, a non-blank
      role and bio if present, and no key outside the allowed set. */
  predicate GoodFile(f: ContributorFile) {
    && Entry(f).Some?
    && var fields := Entry(f).value;
    && IsNonBlankString(Get(fields, "name"))
    && AbsentOrNonBlank(fields, "github")
    && (Get(fields, "github").Some? ==> MatchesHandlePattern(Trim(Get(fields, "github").value.s)))
    && AbsentOrNonBlank(fields, "role")
    && AbsentOrNonBlank(fields, "bio")
    && forall k :: k in Keys(fields) ==> k in Allowed
  }

  /** Every file is good, no two files share a name, and no two files share
      a handle (names and handles compared trimmed and in lower case). */
  predicate DataSetValid(files: seq<ContributorFile>) {
    && (forall i :: 0 <= i < |files| ==> GoodFile(files[i]))
    && (forall i, j :: 0 <= i < j < |files| ==> NameKey(files[i]) != NameKey(files[j]))
    && (forall i, j :: 0 <= i < j < |files| && HandleKey(files[i]).Some? ==> HandleKey(files[i]) != HandleKey(files[j]))
  }

  lemma {:induction false} UnexpectedKeysEmpty(file: string, keys: seq<string>)
    ensures UnexpectedKeyErrors(file, keys) == [] <==> forall k :: k in keys ==> k in Allowed
  {
    if keys != [] {
      var init, last := keys[..|keys| - 1], keys[|keys| - 1];
      assert keys == init + [last];
      UnexpectedKeysEmpty(file, init);
    }
  }

  /** One file adds no message exactly when it is good and its name and
      handle were not seen before. */
  lemma FileErrorsEmpty(st: State, f: ContributorFile)
    ensures FileErrors(st, f) == []
            <==> GoodFile(f) && KeySet(NameKey(f)) !! st.seenNames && KeySet(HandleKey(f)) !! st.seenGithub
  {
    if Entry(f).Some? {
      var fields := Entry(f).value;
      var n := NameErrors(st.seenNames, f.name, fields);
      var g := GithubErrors(st.seenGithub, f.name, fields);
      var r := OptionalFieldErrors(f.name, fields, "role", RoleNotNonEmptyString);
      var b := OptionalFieldErrors(f.name, fields, "bio", BioNotNonEmptyString);
      var k := UnexpectedKeyErrors(f.name, Keys(fields));
      assert FileErrors(st, f) == n + g + r + b + k;
      UnexpectedKeysEmpty(f.name, Keys(fields));
      assert n == [] <==> KeySet(NameKey(f)) !! st.seenNames && IsNonBlankString(Get(fields, "name"));
      assert g == [] <==>
        && AbsentOrNonBlank(fields, "github")
        && (Get(fields, "github").Some? ==> MatchesHandlePattern(Trim(Get(fields, "github").value.s)))
        && KeySet(HandleKey(f)) !! st.seenGithub;
    } else {
      RejectedFileHasOneError(st, f);
    }
  }

  lemma DataSetValidSnoc(files: seq<ContributorFile>)
    requires files != []
    ensures var n := |files| - 1;
            DataSetValid(files)
            <==> && DataSetValid(files[..n])
                 && GoodFile(files[n])
                 && (forall j :: 0 <= j < n ==> NameKey(files[j]) != NameKey(files[n]))
                 && (forall j :: 0 <= j < n && HandleKey(files[j]).Some? ==> HandleKey(files[j]) != HandleKey(files[n]))
  {
    var n := |files| - 1;
    assert forall j :: 0 <= j < n ==> files[..n][j] == files[j];
  }

  /** The last file adds no message exactly when it is good and shares its
      name and handle with no earlier file. */
  lemma LastFileClean(files: seq<ContributorFile>)
    requires files != []
    ensures var n := |files| - 1;
            ErrorsOfFile(files, n) == []
            <==> && GoodFile(files[n])
                 && (forall j :: 0 <= j < n ==> NameKey(files[j]) != NameKey(files[n]))
                 && (forall j :: 0 <= j < n && HandleKey(files[j]).Some? ==> HandleKey(files[j]) != HandleKey(files[n]))
  {
    var n := |files| - 1;
    var f := files[n];
    var st := Run(Initial, files[..n]);
    assert ErrorsOfFile(files, n) == []
           <==> GoodFile(f) && KeySet(NameKey(f)) !! st.seenNames && KeySet(HandleKey(f)) !! st.seenGithub by {
      FileErrorsEmpty(st, f);
    }
    assert GoodFile(f) ==>
      (KeySet(NameKey(f)) !! st.seenNames <==> forall j :: 0 <= j < n ==> NameKey(files[j]) != NameKey(f)) by {
      if NameKey(f).Some? {
        assert forall j :: 0 <= j < n ==> files[..n][j] == files[j];
        SeenNamesOfRun(files[..n], NameKey(f).value);
      }
    }
    assert KeySet(HandleKey(f)) !! st.seenGithub
           <==> forall j :: 0 <= j < n && HandleKey(files[j]).Some? ==> HandleKey(files[j]) != HandleKey(f) by {
      if HandleKey(f).Some? {
        assert forall j :: 0 <= j < n ==> files[..n][j] == files[j];
        SeenHandlesOfRun(files[..n], HandleKey(f).value);
      }
    }
  }

  /** The pass ends with no errors exactly when the data set is valid. */
  lemma {:induction false} NoErrorsIffValid(files: seq<ContributorFile>)
    ensures Run(Initial, files).errors == [] <==> DataSetValid(files)
  {
    if files != [] {
      var n := |files| - 1;
      NoErrorsIffValid(files[..n]);
      RunLast(files);
      LastFileClean(files);
      DataSetValidSnoc(files);
    }
  }

  // ---------------------------------------------------------------------
  // The verdict

  /** The script reports success exactly when the directory can be listed,
      has at least one `.json` file, and those files form a valid data set;
      it then reports how many files it checked. */
  lemma ValidateSucceeds(dir: Directory)
    ensures Validate(dir).AllValid?
            <==> dir.Listing? && JsonFiles(dir.entries) != [] && DataSetValid(JsonFiles(dir.entries))
    ensures Validate(dir).AllValid? ==> Validate(dir).fileCount == |JsonFiles(dir.entries)|
  {
    if dir.Listing? {
      NoErrorsIffValid(JsonFiles(dir.entries));
    }
  }

  /** The script fails on the data exactly when there is at least one
      `.json` file and the data set is not valid, and it then reports every
      message of the pass, in order. */
  lemma ValidateFails(dir: Directory)
    ensures Validate(dir).ValidationFailed?
            <==> dir.Listing? && JsonFiles(dir.entries) != [] && !DataSetValid(JsonFiles(dir.entries))
    ensures Validate(dir).ValidationFailed? ==> Validate(dir).errors == Run(Initial, JsonFiles(dir.entries)).errors
  {
    if dir.Listing? {
      NoErrorsIffValid(JsonFiles(dir.entries));
    }
  }

  /** The script stops before checking anything exactly when no directory
      entry's name ends with `.json`. */
  lemma ValidateFindsNoFiles(dir: Directory)
    ensures Validate(dir) == NoContributorFiles
            <==> dir.Listing? && forall k :: 0 <= k < |dir.entries| ==> !EndsWith(dir.entries[k].name, ".json")
  {
    if dir.Listing? && JsonFiles(dir.entries) != [] {
      assert JsonFiles(dir.entries)[0] in JsonFiles(dir.entries);
    }
  }
}
