/** What the validator's rules promise, proved about the functions of
    `ContributorRules`: the messages each file gets, the order-dependent
    duplicate checks, the handle pattern, and the verdict. */
module ContributorProperties {
  import opened Optional
  import opened JsText
  import opened JsonValue
  import opened ContributorRules

  // ---------------------------------------------------------------------
  // Selecting messages by rule

  lemma {:induction false} OnlyAppend(a: seq<Err>, b: seq<Err>, rules: set<Rule>)
    ensures Only(a + b, rules) == Only(a, rules) + Only(b, rules)
  {
    if a == [] {
      assert a + b == b;
    } else {
      assert (a + b)[1..] == a[1..] + b;
      OnlyAppend(a[1..], b, rules);
    }
  }

  lemma {:induction false} OnlyUnexpectedKeys(file: string, keys: seq<string>, rules: set<Rule>)
    ensures Only(UnexpectedKeyErrors(file, keys), rules)
            == if UnexpectedKey in rules then UnexpectedKeyErrors(file, keys) else []
  {
    if keys != [] {
      var init, last := keys[..|keys| - 1], keys[|keys| - 1];
      OnlyUnexpectedKeys(file, init, rules);
      OnlyAppend(UnexpectedKeyErrors(file, init),
                 if last in Allowed then [] else [Err(file, UnexpectedKey, last)], rules);
    }
  }

  const NameRules: set<Rule> := {NameRequired, DuplicateName}
  const GithubRules: set<Rule> := {GithubNotNonEmptyString, DuplicateGithub, InvalidGithub}

  lemma NameErrorsOnly(seen: set<string>, file: string, fields: seq<Field>, rules: set<Rule>)
    ensures NameRules <= rules ==> Only(NameErrors(seen, file, fields), rules) == NameErrors(seen, file, fields)
    ensures NameRules !! rules ==> Only(NameErrors(seen, file, fields), rules) == []
  {
  }

  lemma GithubErrorsOnly(seen: set<string>, file: string, fields: seq<Field>, rules: set<Rule>)
    ensures GithubRules <= rules ==> Only(GithubErrors(seen, file, fields), rules) == GithubErrors(seen, file, fields)
    ensures GithubRules !! rules ==> Only(GithubErrors(seen, file, fields), rules) == []
  {
    var github := Get(fields, "github");
    if IsNonBlankString(github) {
      var dup := if Normalize(github.value.s) in seen then [Err(file, DuplicateGithub, github.value.s)] else [];
      var bad := if MatchesHandlePattern(Trim(github.value.s)) then [] else [Err(file, InvalidGithub, github.value.s)];
      OnlyAppend(dup, bad, rules);
    }
  }

  lemma OptionalErrorsOnly(file: string, fields: seq<Field>, key: string, rule: Rule, rules: set<Rule>)
    ensures rule in rules ==> Only(OptionalFieldErrors(file, fields, key, rule), rules) == OptionalFieldErrors(file, fields, key, rule)
    ensures rule !in rules ==> Only(OptionalFieldErrors(file, fields, key, rule), rules) == []
  {
  }

  /** The messages of an object, check by check. */
  lemma OnlyOfObject(st: State, f: ContributorFile, rules: set<Rule>)
    requires Entry(f).Some?
    ensures var fields := Entry(f).value;
      Only(FileErrors(st, f), rules)
      == Only(NameErrors(st.seenNames, f.name, fields), rules)
         + Only(GithubErrors(st.seenGithub, f.name, fields), rules)
         + Only(OptionalFieldErrors(f.name, fields, "role", RoleNotNonEmptyString), rules)
         + Only(OptionalFieldErrors(f.name, fields, "bio", BioNotNonEmptyString), rules)
         + (if UnexpectedKey in rules then UnexpectedKeyErrors(f.name, Keys(fields)) else [])
  {
    var fields := Entry(f).value;
    var n := NameErrors(st.seenNames, f.name, fields);
    var g := GithubErrors(st.seenGithub, f.name, fields);
    var r := OptionalFieldErrors(f.name, fields, "role", RoleNotNonEmptyString);
    var b := OptionalFieldErrors(f.name, fields, "bio", BioNotNonEmptyString);
    var k := UnexpectedKeyErrors(f.name, Keys(fields));
    assert FileErrors(st, f) == n + g + r + b + k;
    OnlyAppend(n + g + r + b, k, rules);
    OnlyAppend(n + g + r, b, rules);
    OnlyAppend(n + g, r, rules);
    OnlyAppend(n, g, rules);
    OnlyUnexpectedKeys(f.name, Keys(fields), rules);
  }

  /** Each group of rules selects exactly the messages of its own check. */
  lemma OnlyNameGroup(st: State, f: ContributorFile)
    requires Entry(f).Some?
    ensures var fields := Entry(f).value; Only(FileErrors(st, f), NameRules) == NameErrors(st.seenNames, f.name, fields)
  {
    var fields := Entry(f).value;
    var n := NameErrors(st.seenNames, f.name, fields);
    var g := GithubErrors(st.seenGithub, f.name, fields);
    var r := OptionalFieldErrors(f.name, fields, "role", RoleNotNonEmptyString);
    var b := OptionalFieldErrors(f.name, fields, "bio", BioNotNonEmptyString);
    assert Only(n, NameRules) == n by {
      NameErrorsOnly(st.seenNames, f.name, fields, NameRules);
    }
    assert Only(g, NameRules) == [] by {
      GithubErrorsOnly(st.seenGithub, f.name, fields, NameRules);
    }
    assert Only(r, NameRules) == [] by {
      OptionalErrorsOnly(f.name, fields, "role", RoleNotNonEmptyString, NameRules);
    }
    assert Only(b, NameRules) == [] by {
      OptionalErrorsOnly(f.name, fields, "bio", BioNotNonEmptyString, NameRules);
    }
    OnlyOfObject(st, f, NameRules);
  }

  lemma OnlyGithubGroup(st: State, f: ContributorFile)
    requires Entry(f).Some?
    ensures var fields := Entry(f).value; Only(FileErrors(st, f), GithubRules) == GithubErrors(st.seenGithub, f.name, fields)
  {
    var fields := Entry(f).value;
    var n := NameErrors(st.seenNames, f.name, fields);
    var g := GithubErrors(st.seenGithub, f.name, fields);
    var r := OptionalFieldErrors(f.name, fields, "role", RoleNotNonEmptyString);
    var b := OptionalFieldErrors(f.name, fields, "bio", BioNotNonEmptyString);
    assert Only(n, GithubRules) == [] by {
      NameErrorsOnly(st.seenNames, f.name, fields, GithubRules);
    }
    assert Only(g, GithubRules) == g by {
      GithubErrorsOnly(st.seenGithub, f.name, fields, GithubRules);
    }
    assert Only(r, GithubRules) == [] by {
      OptionalErrorsOnly(f.name, fields, "role", RoleNotNonEmptyString, GithubRules);
    }
    assert Only(b, GithubRules) == [] by {
      OptionalErrorsOnly(f.name, fields, "bio", BioNotNonEmptyString, GithubRules);
    }
    OnlyOfObject(st, f, GithubRules);
  }

  lemma OnlyRoleGroup(st: State, f: ContributorFile)
    requires Entry(f).Some?
    ensures var fields := Entry(f).value; Only(FileErrors(st, f), {RoleNotNonEmptyString}) == OptionalFieldErrors(f.name, fields, "role", RoleNotNonEmptyString)
  {
    var fields := Entry(f).value;
    var n := NameErrors(st.seenNames, f.name, fields);
    var g := GithubErrors(st.seenGithub, f.name, fields);
    var r := OptionalFieldErrors(f.name, fields, "role", RoleNotNonEmptyString);
    var b := OptionalFieldErrors(f.name, fields, "bio", BioNotNonEmptyString);
    assert Only(n, {RoleNotNonEmptyString}) == [] by {
      NameErrorsOnly(st.seenNames, f.name, fields, {RoleNotNonEmptyString});
    }
    assert Only(g, {RoleNotNonEmptyString}) == [] by {
      GithubErrorsOnly(st.seenGithub, f.name, fields, {RoleNotNonEmptyString});
    }
    assert Only(r, {RoleNotNonEmptyString}) == r by {
      OptionalErrorsOnly(f.name, fields, "role", RoleNotNonEmptyString, {RoleNotNonEmptyString});
    }
    assert Only(b, {RoleNotNonEmptyString}) == [] by {
      OptionalErrorsOnly(f.name, fields, "bio", BioNotNonEmptyString, {RoleNotNonEmptyString});
    }
    OnlyOfObject(st, f, {RoleNotNonEmptyString});
  }

  lemma OnlyBioGroup(st: State, f: ContributorFile)
    requires Entry(f).Some?
    ensures var fields := Entry(f).value; Only(FileErrors(st, f), {BioNotNonEmptyString}) == OptionalFieldErrors(f.name, fields, "bio", BioNotNonEmptyString)
  {
    var fields := Entry(f).value;
    var n := NameErrors(st.seenNames, f.name, fields);
    var g := GithubErrors(st.seenGithub, f.name, fields);
    var r := OptionalFieldErrors(f.name, fields, "role", RoleNotNonEmptyString);
    var b := OptionalFieldErrors(f.name, fields, "bio", BioNotNonEmptyString);
    assert Only(n, {BioNotNonEmptyString}) == [] by {
      NameErrorsOnly(st.seenNames, f.name, fields, {BioNotNonEmptyString});
    }
    assert Only(g, {BioNotNonEmptyString}) == [] by {
      GithubErrorsOnly(st.seenGithub, f.name, fields, {BioNotNonEmptyString});
    }
    assert Only(r, {BioNotNonEmptyString}) == [] by {
      OptionalErrorsOnly(f.name, fields, "role", RoleNotNonEmptyString, {BioNotNonEmptyString});
    }
    assert Only(b, {BioNotNonEmptyString}) == b by {
      OptionalErrorsOnly(f.name, fields, "bio", BioNotNonEmptyString, {BioNotNonEmptyString});
    }
    OnlyOfObject(st, f, {BioNotNonEmptyString});
  }

  lemma OnlyKeyGroup(st: State, f: ContributorFile)
    requires Entry(f).Some?
    ensures var fields := Entry(f).value; Only(FileErrors(st, f), {UnexpectedKey}) == UnexpectedKeyErrors(f.name, Keys(fields))
  {
    var fields := Entry(f).value;
    var n := NameErrors(st.seenNames, f.name, fields);
    var g := GithubErrors(st.seenGithub, f.name, fields);
    var r := OptionalFieldErrors(f.name, fields, "role", RoleNotNonEmptyString);
    var b := OptionalFieldErrors(f.name, fields, "bio", BioNotNonEmptyString);
    assert Only(n, {UnexpectedKey}) == [] by {
      NameErrorsOnly(st.seenNames, f.name, fields, {UnexpectedKey});
    }
    assert Only(g, {UnexpectedKey}) == [] by {
      GithubErrorsOnly(st.seenGithub, f.name, fields, {UnexpectedKey});
    }
    assert Only(r, {UnexpectedKey}) == [] by {
      OptionalErrorsOnly(f.name, fields, "role", RoleNotNonEmptyString, {UnexpectedKey});
    }
    assert Only(b, {UnexpectedKey}) == [] by {
      OptionalErrorsOnly(f.name, fields, "bio", BioNotNonEmptyString, {UnexpectedKey});
    }
    OnlyOfObject(st, f, {UnexpectedKey});
  }

  // ---------------------------------------------------------------------
  // One file

  /** A file that cannot be read, does not parse, or is not an object gets
      exactly one message, and no name or handle is recorded for it. */
  lemma RejectedFileHasOneError(st: State, f: ContributorFile)
    requires Entry(f).None?
    ensures FileErrors(st, f) ==
      match f.content
      case ReadFailed => [Err(f.name, CannotBeRead, "")]
      case ParseFailed(message) => [Err(f.name, InvalidJson, message)]
      case Parsed(_) => [Err(f.name, NotAnObject, "")]
    ensures Step(st, f).seenNames == st.seenNames && Step(st, f).seenGithub == st.seenGithub
  {
  }

  /** The `name` rule: a missing, non-string or blank name gets one message
      and records nothing; a valid name gets a duplicate message exactly when
      its trimmed, lower-case form was seen before, and that form is recorded. */
  lemma NameRule(st: State, f: ContributorFile)
    requires Entry(f).Some?
    ensures var name := Get(Entry(f).value, "name");
      Only(FileErrors(st, f), NameRules)
      == if !IsNonBlankString(name) then [Err(f.name, NameRequired, "")]
         else if Normalize(name.value.s) in st.seenNames then [Err(f.name, DuplicateName, name.value.s)]
         else []
    ensures NameKey(f).None? ==> Step(st, f).seenNames == st.seenNames
    ensures NameKey(f).Some? ==> Step(st, f).seenNames == st.seenNames + {NameKey(f).value}
  {
    OnlyNameGroup(st, f);
  }

  /** The `github` rule. A key that is present is checked whatever its value,
      so a JSON null gets the message for a value that is not a non-empty
      string. The duplicate check comes before the format check, and a handle
      of the wrong form is still recorded. */
  lemma GithubRule(st: State, f: ContributorFile)
    requires Entry(f).Some?
    ensures var github := Get(Entry(f).value, "github");
      Only(FileErrors(st, f), GithubRules)
      == if github.None? then []
         else if !IsNonBlankString(github) then [Err(f.name, GithubNotNonEmptyString, "")]
         else (if Normalize(github.value.s) in st.seenGithub then [Err(f.name, DuplicateGithub, github.value.s)] else [])
              + (if MatchesHandlePattern(Trim(github.value.s)) then [] else [Err(f.name, InvalidGithub, github.value.s)])
    ensures HandleKey(f).None? ==> Step(st, f).seenGithub == st.seenGithub
    ensures HandleKey(f).Some? ==> Step(st, f).seenGithub == st.seenGithub + {HandleKey(f).value}
  {
    OnlyGithubGroup(st, f);
  }

  /** `role` and `bio`: at most one message each, and only when the key is
      present and its value is not a non-empty string after trimming. */
  lemma OptionalFieldRule(st: State, f: ContributorFile)
    requires Entry(f).Some?
    ensures var role := Get(Entry(f).value, "role");
      Only(FileErrors(st, f), {RoleNotNonEmptyString})
      == if role.Some? && !IsNonBlankString(role) then [Err(f.name, RoleNotNonEmptyString, "")] else []
    ensures var bio := Get(Entry(f).value, "bio");
      Only(FileErrors(st, f), {BioNotNonEmptyString})
      == if bio.Some? && !IsNonBlankString(bio) then [Err(f.name, BioNotNonEmptyString, "")] else []
  {
    OnlyRoleGroup(st, f);
    OnlyBioGroup(st, f);
  }

  /** Unexpected keys: the file gets one message per occurrence of a key
      outside the allowed set (once per key, since an object's keys are
      distinct), and none when every key is allowed. */
  lemma UnexpectedKeyRule(st: State, f: ContributorFile, key: string)
    requires Entry(f).Some?
    ensures var keys := Keys(Entry(f).value);
      && multiset(Only(FileErrors(st, f), {UnexpectedKey}))[Err(f.name, UnexpectedKey, key)]
         == (if key in Allowed then 0 else multiset(keys)[key])
      && ((forall k :: k in keys ==> k in Allowed) ==> Only(FileErrors(st, f), {UnexpectedKey}) == [])
  {
    OnlyKeyGroup(st, f);
    UnexpectedKeysCounted(f.name, Keys(Entry(f).value), key);
  }

  lemma {:induction false} UnexpectedKeysCounted(file: string, keys: seq<string>, key: string)
    ensures multiset(UnexpectedKeyErrors(file, keys))[Err(file, UnexpectedKey, key)]
            == (if key in Allowed then 0 else multiset(keys)[key])
    ensures (forall k :: k in keys ==> k in Allowed) ==> UnexpectedKeyErrors(file, keys) == []
  {
    if keys != [] {
      var init, last := keys[..|keys| - 1], keys[|keys| - 1];
      assert keys == init + [last];
      UnexpectedKeysCounted(file, init, key);
    }
  }

  // ---------------------------------------------------------------------
  // Comparing names and handles

  /** Two values that differ only in ASCII case are the same name (or the
      same handle) for the duplicate checks. */
  lemma NormalizeIgnoresCase(a: string, b: string)
    requires |a| == |b| && forall k :: 0 <= k < |a| ==> LowerChar(a[k]) == LowerChar(b[k])
    ensures Normalize(a) == Normalize(b)
  {
    TrimAgreesUpToCase(a, b);
    ToLowerSpec(Trim(a));
    ToLowerSpec(Trim(b));
  }

  /** Surrounding whitespace does not make a name (or handle) different. */
  lemma NormalizeIgnoresSurroundingSpace(p: string, s: string, q: string)
    requires forall k :: 0 <= k < |p| ==> IsWhitespace(p[k])
    requires forall k :: 0 <= k < |q| ==> IsWhitespace(q[k])
    ensures Normalize(p + s + q) == Normalize(s)
  {
    assert p + s + q == p + (s + q);
    TrimDropsLeading(p, s + q);
    TrimDropsTrailing(s, q);
  }

  /** A name with a space in front and the same name with a space after it
      are duplicates of each other. */
  lemma NormalizePaddedNames()
    ensures Normalize(" Ada") == Normalize("Ada ")
  {
    NormalizeIgnoresSurroundingSpace(" ", "Ada", "");
    NormalizeIgnoresSurroundingSpace("", "Ada", " ");
    assert " " + "Ada" + "" == " Ada";
    assert "" + "Ada" + " " == "Ada ";
  }

  // ---------------------------------------------------------------------
  // The handle pattern

  /** The pattern accepts exactly the strings of 1 to 39 characters, each a
      letter, a digit or a hyphen, that begin and end with a letter or digit. */
  lemma HandlePatternShape(s: string)
    ensures MatchesHandlePattern(s)
            <==> && 1 <= |s| <= 39
                 && IsAsciiAlnum(s[0]) && IsAsciiAlnum(s[|s| - 1])
                 && forall k :: 0 <= k < |s| ==> IsAlnumOrHyphen(s[k])
  {
    if 2 <= |s| {
      var m := s[1..|s| - 1];
      assert forall k :: 1 <= k < |s| - 1 ==> s[k] == m[k - 1];
      if forall k :: 0 <= k < |s| ==> IsAlnumOrHyphen(s[k]) {
        assert forall k :: 0 <= k < |m| ==> IsAlnumOrHyphen(m[k]) by {
          forall k | 0 <= k < |m| ensures IsAlnumOrHyphen(m[k]) {
            assert m[k] == s[k + 1];
          }
        }
      }
    }
  }

  /** Hyphens may repeat inside a handle, but not open or close it. */
  lemma HandlePatternHyphens()
    ensures MatchesHandlePattern("a")
    ensures MatchesHandlePattern("octo-cat")
    ensures MatchesHandlePattern("a--b")
    ensures !MatchesHandlePattern("")
    ensures !MatchesHandlePattern("-octocat")
    ensures !MatchesHandlePattern("octocat-")
  {
  }

  /** Only letters, digits and hyphens. */
  lemma HandlePatternRejectsUnderscore()
    ensures !MatchesHandlePattern("octo_cat")
  {
    HandlePatternShape("octo_cat");
    assert "octo_cat"[4] == '_';
  }

  /** At most 39 characters. */
  lemma HandlePatternLength()
    ensures MatchesHandlePattern("abcdefghijklmnopqrstuvwxyz0123456789ABC")
    ensures !MatchesHandlePattern("abcdefghijklmnopqrstuvwxyz0123456789ABCD")
  {
    var longest := "abcdefghijklmnopqrstuvwxyz0123456789ABC";
    HandlePatternShape(longest);
    assert forall k :: 0 <= k < |longest| ==> IsAsciiAlnum(longest[k]);
  }
}
