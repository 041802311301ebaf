/** The validator script's loop as it runs: one object holds the error list
    and the two sets of seen names and handles, and each file's checks push
    onto the list and add to the sets in place. Every method is proved to
    leave the object in the state the functions of `ContributorRules` give. */
module ContributorValidator {
  import opened Optional
  import opened JsText
  import opened JsonValue
  import opened ContributorRules

  class Validator {
    var errors: seq<Err>
    var seenNames: set<string>
    var seenGithub: set<string>

    /** The state of the pass, as `ContributorRules` describes it. */
    function Snapshot(): State
      reads this
    {
      State(errors, seenNames, seenGithub)
    }

    constructor ()
      ensures Snapshot() == Initial
    {
      errors, seenNames, seenGithub := [], {}, {};
    }

    /** One iteration of the loop: read failure, parse failure and a value
        that is not an object each end the iteration with one message. */
    method CheckFile(f: ContributorFile)
      modifies this
      ensures Snapshot() == Step(old(Snapshot()), f)
    {
      var file := f.name;
      match f.content {
        case ReadFailed =>
          errors := errors + [Err(file, CannotBeRead, "")];
        case ParseFailed(message) =>
          errors := errors + [Err(file, InvalidJson, message)];
        case Parsed(entry) =>
          if !entry.JObj? {
            errors := errors + [Err(file, NotAnObject, "")];
          } else {
            CheckEntry(file, entry.fields);
          }
      }
    }

    /** The field checks of one object, in the order the script runs them. */
    method CheckEntry(file: string, fields: seq<Field>)
      modifies this
      ensures Snapshot() == Step(old(Snapshot()), ContributorFile(file, Parsed(JObj(fields))))
    {
      ghost var st := Snapshot();
      ghost var n := NameErrors(st.seenNames, file, fields);
      ghost var g := GithubErrors(st.seenGithub, file, fields);
      ghost var r := OptionalFieldErrors(file, fields, "role", RoleNotNonEmptyString);
      ghost var b := OptionalFieldErrors(file, fields, "bio", BioNotNonEmptyString);
      ghost var k := UnexpectedKeyErrors(file, Keys(fields));
      CheckName(file, fields);
      CheckGithub(file, fields);
      CheckOptional(file, fields, "role", RoleNotNonEmptyString);
      CheckOptional(file, fields, "bio", BioNotNonEmptyString);
      CheckKeys(file, Keys(fields));
      assert errors == st.errors + n + g + r + b + k;
      assert FileErrors(st, ContributorFile(file, Parsed(JObj(fields)))) == n + g + r + b + k;
      AppendAssoc(st.errors, n + g + r + b, k);
      AppendAssoc(st.errors, n + g + r, b);
      AppendAssoc(st.errors, n + g, r);
      AppendAssoc(st.errors, n, g);
    }

    /** The required `name`: a message when it is missing, not a string or
        blank; otherwise a message when it was seen before, and it is added
        to the seen names. */
    method CheckName(file: string, fields: seq<Field>)
      modifies this`errors, this`seenNames
      ensures errors == old(errors) + NameErrors(old(seenNames), file, fields)
      ensures seenNames == old(seenNames) + KeySet(NameKey(ContributorFile(file, Parsed(JObj(fields)))))
    {
      var name := Get(fields, "name");
      if !IsNonBlankString(name) {
        assert NameKey(ContributorFile(file, Parsed(JObj(fields)))) == None;
        errors := errors + [Err(file, NameRequired, "")];
      } else {
        var normalized := Normalize(name.value.s);
        assert NameKey(ContributorFile(file, Parsed(JObj(fields)))) == Some(normalized);
        if normalized in seenNames {
          errors := errors + [Err(file, DuplicateName, name.value.s)];
        }
        seenNames := seenNames + {normalized};
      }
    }

    /** The optional `github`: checked when the key is present, whatever its
        value (a JSON null included). */
    method CheckGithub(file: string, fields: seq<Field>)
      modifies this`errors, this`seenGithub
      ensures errors == old(errors) + GithubErrors(old(seenGithub), file, fields)
      ensures seenGithub == old(seenGithub) + KeySet(HandleKey(ContributorFile(file, Parsed(JObj(fields)))))
    {
      var github := Get(fields, "github");
      if github.Some? {
        if !IsNonBlankString(github) {
          assert HandleKey(ContributorFile(file, Parsed(JObj(fields)))) == None;
          errors := errors + [Err(file, GithubNotNonEmptyString, "")];
        } else {
          var handle := Normalize(github.value.s);
          assert HandleKey(ContributorFile(file, Parsed(JObj(fields)))) == Some(handle);
          if handle in seenGithub {
            errors := errors + [Err(file, DuplicateGithub, github.value.s)];
          }
          seenGithub := seenGithub + {handle};
          if !MatchesHandlePattern(Trim(github.value.s)) {
            errors := errors + [Err(file, InvalidGithub, github.value.s)];
          }
        }
      }
    }

    /** An optional string field (`role`, `bio`). */
    method CheckOptional(file: string, fields: seq<Field>, key: string, rule: Rule)
      modifies this`errors
      ensures errors == old(errors) + OptionalFieldErrors(file, fields, key, rule)
    {
      var v := Get(fields, key);
      if v.Some? && !IsNonBlankString(v) {
        errors := errors + [Err(file, rule, "")];
      }
    }

    /** The loop over `Object.keys(entry)`: one message per key outside the
        allowed set. */
    method CheckKeys(file: string, keys: seq<string>)
      modifies this`errors
      ensures errors == old(errors) + UnexpectedKeyErrors(file, keys)
    {
      for i := 0 to |keys|
        invariant errors == old(errors) + UnexpectedKeyErrors(file, keys[..i])
      {
        if keys[i] !in Allowed {
          errors := errors + [Err(file, UnexpectedKey, keys[i])];
        }
        assert keys[..i + 1][..i] == keys[..i];
      }
      assert keys[..|keys|] == keys;
    }
  }

  lemma AppendAssoc<T>(a: seq<T>, b: seq<T>, c: seq<T>)
    ensures a + (b + c) == a + b + c
  {
  }

  /** The script from the directory listing to its exit: the verdict is the
      one `Validate` gives. */
  method ValidateContributors(dir: Directory) returns (verdict: Verdict)
    ensures verdict == Validate(dir)
  {
    if dir.Unreadable? {
      return CannotReadDirectory;
    }
    var files := JsonFiles(dir.entries);
    if |files| == 0 {
      return NoContributorFiles;
    }
    var v := new Validator();
    for i := 0 to |files|
      invariant v.Snapshot() == Run(Initial, files[..i])
    {
      v.CheckFile(files[i]);
      RunSnoc(files, i);
    }
    assert files[..|files|] == files;
    if |v.errors| > 0 {
      return ValidationFailed(v.errors);
    }
    return AllValid(|files|);
  }
}
