/** The pure parts of the contributor card (`src/ContributorCard.jsx`): the
    initials shown when there is no avatar, the avatar and profile URLs
    built from the optional GitHub handle, and which optional pieces the card
    shows. */
module ContributorCard {
  import opened Optional
  import opened JsText

  // ---------------------------------------------------------------------
  // Splitting on one character

  /** `s.split(sep)` for a one-character separator: the pieces between
      separators, in order, so an empty string gives one empty piece and
      every separator adds a piece. */
  function Split(s: string, sep: char): (pieces: seq<string>)
    ensures |pieces| >= 1
    decreases |s|
  {
    if s == [] then [""]
    else if s[0] == sep then [""] + Split(s[1..], sep)
    else
      var rest := Split(s[1..], sep);
      [[s[0]] + rest[0]] + rest[1..]
  }

  /** `pieces.join(sep)`. */
  function Join(pieces: seq<string>, sep: char): string
    requires |pieces| >= 1
    decreases |pieces|
  {
    if |pieces| == 1 then pieces[0] else pieces[0] + [sep] + Join(pieces[1..], sep)
  }

  /** Joining the pieces with the separator gives the string back. */
  lemma {:induction false} SplitJoin(s: string, sep: char)
    ensures Join(Split(s, sep), sep) == s
    decreases |s|
  {
    if s != [] {
      SplitJoin(s[1..], sep);
      var rest := Split(s[1..], sep);
      if s[0] == sep {
        assert Split(s, sep)[1..] == rest;
      } else if |rest| > 1 {
        assert Split(s, sep)[1..] == rest[1..];
        assert Join(rest, sep) == rest[0] + [sep] + Join(rest[1..], sep);
      }
    }
  }

  /** There is one piece more than there are separators, and no piece
      holds a separator. */
  lemma {:induction false} SplitPieces(s: string, sep: char)
    ensures |Split(s, sep)| == 1 + multiset(s)[sep]
    ensures forall k :: 0 <= k < |Split(s, sep)| ==> sep !in Split(s, sep)[k]
    decreases |s|
  {
    if s != [] {
      SplitPieces(s[1..], sep);
      assert s == [s[0]] + s[1..];
      var rest := Split(s[1..], sep);
      var pieces := Split(s, sep);
      if s[0] == sep {
        assert pieces[1..] == rest;
        forall k | 0 < k < |pieces| ensures sep !in pieces[k] {
          assert pieces[k] == rest[k - 1];
        }
      } else {
        forall k | 0 < k < |pieces| ensures sep !in pieces[k] {
          assert pieces[k] == rest[k];
        }
      }
    }
  }

  /** The position of the first `c` in `s`. */
  function IndexOf(s: string, c: char): (i: nat)
    requires c in s
    ensures i < |s| && s[i] == c && c !in s[..i]
  {
    if s[0] == c then 0
    else
      assert c in s[1..] by { assert s == [s[0]] + s[1..]; }
      var i := IndexOf(s[1..], c);
      assert s[..i + 1] == [s[0]] + s[1..][..i];
      i + 1
  }

  /** The first piece runs up to the first separator; the remaining pieces
      are the pieces of what follows it. */
  lemma {:induction false} SplitFirst(s: string, sep: char)
    ensures sep !in s ==> Split(s, sep) == [s]
    ensures sep in s ==> var i := IndexOf(s, sep);
      && Split(s, sep)[0] == s[..i]
      && Split(s, sep)[1..] == Split(s[i + 1..], sep)
    decreases |s|
  {
    if s != [] {
      assert s == [s[0]] + s[1..];
      if s[0] != sep {
        SplitFirst(s[1..], sep);
        if sep in s {
          var i := IndexOf(s, sep);
          assert s[1..][i - 1 + 1..] == s[i + 1..];
          assert s[..i] == [s[0]] + s[1..][..i - 1];
        }
      }
    }
  }

  // ---------------------------------------------------------------------
  // Initials

  /** `w[0]` as the join sees it: the first character, or the empty string
      for an empty piece (whose `w[0]` is `undefined`). */
  function Head(w: string): string {
    if w == [] then "" else [w[0]]
  }

  /** `.map((w) => w[0])`. */
  function Heads(pieces: seq<string>): (heads: seq<string>)
    ensures |heads| == |pieces|
    ensures forall k :: 0 <= k < |pieces| ==> heads[k] == Head(pieces[k])
    decreases |pieces|
  {
    if pieces == [] then [] else [Head(pieces[0])] + Heads(pieces[1..])
  }

  /** `.join('')` of the first characters. */
  function Concat(heads: seq<string>): string
    decreases |heads|
  {
    if heads == [] then "" else heads[0] + Concat(heads[1..])
  }

  lemma ConcatTwo(a: string, b: string)
    ensures Concat([a, b]) == a + b
  {
    assert [a, b][1..] == [b];
    assert [b][1..] == [];
    assert Concat([b]) == b + Concat([]);
    assert Concat([a, b]) == a + Concat([b]);
  }

  /** The avatar fallback: split the name on single spaces, take the first
      character of every piece, keep the first two, join them and put them in
      upper case. */
  function Initials(name: string): string {
    var heads := Heads(Split(name, ' '));
    var kept := if |heads| < 2 then heads else heads[..2];
    ToUpper(Concat(kept))
  }

  /** The character after the first space, unless there is none or it is
      itself a space. */
  function AfterFirstSpace(name: string): string {
    if ' ' !in name then ""
    else
      var i := IndexOf(name, ' ');
      if i + 1 < |name| && name[i + 1] != ' ' then [name[i + 1]] else ""
  }

  lemma SplitHead(s: string, sep: char)
    ensures Head(Split(s, sep)[0]) == if s != [] && s[0] != sep then [s[0]] else ""
  {
  }

  /** The initial of the first piece: the first character unless it is a
      space. */
  function FirstInitial(name: string): string {
    if name != [] && name[0] != ' ' then [name[0]] else ""
  }

  lemma InitialsOneWord(name: string)
    requires ' ' !in name
    ensures Initials(name) == ToUpper(FirstInitial(name))
  {
    var heads := Heads(Split(name, ' '));
    assert heads == [Head(name)] by {
      SplitFirst(name, ' ');
    }
    assert Concat(heads) == Head(name) by {
      assert heads[1..] == [];
    }
  }

  lemma InitialsSeveralWords(name: string)
    requires ' ' in name
    ensures Initials(name) == ToUpper(FirstInitial(name) + AfterFirstSpace(name))
  {
    var pieces := Split(name, ' ');
    var heads := Heads(pieces);
    var i := IndexOf(name, ' ');
    assert |pieces| >= 2 && pieces[0] == name[..i] && pieces[1] == Split(name[i + 1..], ' ')[0] by {
      SplitFirst(name, ' ');
    }
    assert Head(pieces[0]) == FirstInitial(name) by {
      SplitHead(name, ' ');
      if i > 0 {
        assert pieces[0][0] == name[0];
      }
    }
    assert Head(pieces[1]) == AfterFirstSpace(name) by {
      SplitHead(name[i + 1..], ' ');
    }
    assert Concat(heads[..2]) == FirstInitial(name) + AfterFirstSpace(name) by {
      assert heads[..2] == [Head(pieces[0]), Head(pieces[1])];
      ConcatTwo(Head(pieces[0]), Head(pieces[1]));
    }
  }

  /** Initials described by the characters of the name: its first character
      unless that is a space, then the character after the first space
      unless that is a space or the end. A leading or doubled space empties a
      piece and so costs an initial. */
  lemma InitialsByCharacter(name: string)
    ensures Initials(name) == ToUpper(FirstInitial(name) + AfterFirstSpace(name))
  {
    if ' ' !in name {
      InitialsOneWord(name);
      assert FirstInitial(name) + AfterFirstSpace(name) == FirstInitial(name);
    } else {
      InitialsSeveralWords(name);
    }
  }

  /** At most two initials, and no lower-case ASCII letter among them. */
  lemma InitialsShape(name: string)
    ensures |Initials(name)| <= 2
    ensures forall k :: 0 <= k < |Initials(name)| ==> !IsAsciiLower(Initials(name)[k])
  {
    InitialsByCharacter(name);
    ToUpperSpec(FirstInitial(name) + AfterFirstSpace(name));
  }

  /** A leading space empties the first piece, so only the second word
      gives an initial. */
  lemma InitialsLeadingSpace()
    ensures Initials(" Ada Lovelace") == "A"
  {
    var name := " Ada Lovelace";
    assert AfterFirstSpace(name) == "A" by {
      assert IndexOf(name, ' ') == 0;
    }
    assert FirstInitial(name) == "";
    assert ToUpper("A") == "A" by {
      ToUpperSpec("A");
    }
    InitialsByCharacter(name);
  }

  /** Two words give two initials, in upper case. */
  lemma InitialsTwoWords()
    ensures Initials("jo li") == "JL"
  {
    var name := "jo li";
    assert AfterFirstSpace(name) == "l" by {
      assert IndexOf(name, ' ') == 2 by {
        assert name[..2] == "jo";
      }
    }
    assert FirstInitial(name) == "j";
    assert ToUpper("jl") == "JL" by {
      ToUpperSpec("jl");
    }
    InitialsByCharacter(name);
  }

  /** A doubled space empties the second piece. */
  lemma InitialsDoubledSpace()
    ensures Initials("Ada  Lovelace") == "A"
  {
    var name := "Ada  Lovelace";
    assert AfterFirstSpace(name) == "" by {
      assert IndexOf(name, ' ') == 3 by {
        assert name[..3] == "Ada";
      }
    }
    assert FirstInitial(name) == "A";
    assert ToUpper("A") == "A" by {
      ToUpperSpec("A");
    }
    InitialsByCharacter(name);
  }

  // ---------------------------------------------------------------------
  // URLs

  const GithubBase: string := "https://github.com/"
  const AvatarSuffix: string := ".png?size=96"

  /** JavaScript truthiness of an optional string: present and not empty. */
  predicate Truthy(v: Option<string>) {
    v.Some? && v.value != ""
  }

  /** The avatar URL, or nothing (`null`) when the handle is falsy. */
  function AvatarUrl(github: Option<string>): Option<string> {
    if Truthy(github) then Some(GithubBase + github.value + AvatarSuffix) else None
  }

  /** The profile link's target. */
  function ProfileUrl(handle: string): string {
    GithubBase + handle
  }

  /** Reads the handle back out of an avatar URL. */
  function HandleOfAvatarUrl(url: string): Option<string> {
    if |url| >= |GithubBase| + |AvatarSuffix|
       && url[..|GithubBase|] == GithubBase
       && url[|url| - |AvatarSuffix|..] == AvatarSuffix
    then Some(url[|GithubBase|..|url| - |AvatarSuffix|])
    else None
  }

  /** There is an avatar URL exactly when the handle is truthy, and the
      handle can be read back from it, so different handles never share an
      avatar. */
  lemma AvatarUrlRoundTrip(github: Option<string>)
    ensures AvatarUrl(github).None? <==> !Truthy(github)
    ensures AvatarUrl(github).Some? ==> HandleOfAvatarUrl(AvatarUrl(github).value) == github
  {
    if Truthy(github) {
      var url := AvatarUrl(github).value;
      assert url[..|GithubBase|] == GithubBase;
      assert url[|url| - |AvatarSuffix|..] == AvatarSuffix;
      assert url[|GithubBase|..|url| - |AvatarSuffix|] == github.value;
    }
  }

  lemma AvatarUrlInjective(a: Option<string>, b: Option<string>)
    requires Truthy(a) && Truthy(b) && AvatarUrl(a) == AvatarUrl(b)
    ensures a == b
  {
    AvatarUrlRoundTrip(a);
    AvatarUrlRoundTrip(b);
  }

  // ---------------------------------------------------------------------
  // What the card shows

  /** The contributor record the card receives. */
  datatype Contributor = Contributor(name: string, github: Option<string>, role: Option<string>, bio: Option<string>)

  /** The avatar box: an image with its source and alternative text, or the
      initials as text. */
  datatype Avatar = Image(src: string, alt: string) | Text(text: string)

  /** The `@handle` link. */
  datatype Link = Link(href: string, text: string)

  /** What one card shows, piece by piece. */
  datatype Card = Card(avatar: Avatar, name: string, profile: Option<Link>, role: Option<string>, bio: Option<string>)

  /** A `{value && <element/>}` piece: shown only when the value is truthy. */
  function ShownIf(v: Option<string>): Option<string> {
    if Truthy(v) then v else None
  }

  function Render(c: Contributor): Card {
    var avatarUrl := AvatarUrl(c.github);
    Card(
      if avatarUrl.Some? then Image(avatarUrl.value, c.name + "'s GitHub avatar") else Text(Initials(c.name)),
      c.name,
      if Truthy(c.github) then Some(Link(ProfileUrl(c.github.value), "@" + c.github.value)) else None,
      ShownIf(c.role),
      ShownIf(c.bio))
  }

  /** The card shows the initials exactly when there is no handle to show;
      otherwise it shows the avatar image together with the profile link,
      and the image is the profile URL with the avatar suffix. Role and bio
      appear exactly when they are truthy, unchanged. */
  lemma RenderShows(c: Contributor)
    ensures Render(c).avatar.Text? <==> !Truthy(c.github)
    ensures Render(c).avatar.Text? ==> Render(c).avatar.text == Initials(c.name)
    ensures Render(c).avatar.Image? <==> Render(c).profile.Some?
    ensures Render(c).profile.Some? ==>
              && Render(c).avatar.src == Render(c).profile.value.href + AvatarSuffix
              && Render(c).profile.value.href == ProfileUrl(c.github.value)
              && Render(c).profile.value.text == "@" + c.github.value
    ensures Render(c).role.Some? <==> Truthy(c.role)
    ensures Render(c).role.Some? ==> Render(c).role == c.role
    ensures Render(c).bio.Some? <==> Truthy(c.bio)
    ensures Render(c).bio.Some? ==> Render(c).bio == c.bio
  {
    AvatarUrlRoundTrip(c.github);
  }
}
