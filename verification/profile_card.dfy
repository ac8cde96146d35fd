/** The profile card's derived labels: the avatar initials, the role badge's
    colour classes and caption, the status badge, and the photo picker's
    hand-off to `onPhotoUpload`. */
module ProfileCard {
  import opened Wrappers
  import opened Text
  import opened ImageUpload

  /** `word[0]` joined by `join('')`: the first character of a word, and
      nothing for an empty word (its `undefined` joins as ''). */
  function Head(word: string): (r: string)
    ensures |r| <= 1 && (r == [] <==> word == [])
    ensures r != [] ==> r[0] == word[0]
  {
    if word == [] then [] else [word[0]]
  }

  /** `.map((word) => word[0])`. */
  function Heads(words: seq<string>): (r: seq<string>)
    ensures |r| == |words|
    ensures forall k :: 0 <= k < |words| ==> r[k] == Head(words[k])
  {
    if words == [] then [] else [Head(words[0])] + Heads(words[1..])
  }

  /** `name.split(' ').map((word) => word[0]).join('').toUpperCase().slice(0, 2)`. */
  function GetInitials(name: string): (r: string)
    ensures |r| <= 2
  {
    var letters := Upper(Join(Heads(Split(name, " ")), ""));
    letters[..if |letters| < 2 then |letters| else 2]
  }

  /** Reference definition, independent of splitting: scanning left to right,
      the characters that are not spaces and sit at the start of the text or
      right after a space. `atStart` says whether the previous character was
      a space (or there was none). */
  function WordStarts(s: string, atStart: bool): (r: string)
    ensures |r| <= |s|
    ensures forall k :: 0 <= k < |r| ==> r[k] != ' '
  {
    if s == [] then []
    else (if atStart && s[0] != ' ' then [s[0]] else []) + WordStarts(s[1..], s[0] == ' ')
  }

  /** A run without spaces contributes its first character, and only when a
      word starts with it. */
  lemma {:induction false} NoSpaceRun(w: string, t: string, atStart: bool)
    requires ' ' !in w
    ensures WordStarts(w + t, atStart) == (if atStart then Head(w) else []) + WordStarts(t, atStart && w == [])
    decreases |w|
  {
    if w != [] {
      assert (w + t)[0] == w[0];
      assert (w + t)[1..] == w[1..] + t;
      NoSpaceRun(w[1..], t, false);
    } else {
      assert w + t == t;
    }
  }

  /** Splitting on single spaces and keeping each piece's first character
      gives exactly the word starts: empty pieces from repeated, leading or
      trailing spaces contribute nothing. */
  lemma {:induction false} HeadsAreWordStarts(name: string)
    ensures Join(Heads(Split(name, " ")), "") == WordStarts(name, true)
    decreases |name|
  {
    match IndexOf(name, " ")
    case None =>
      forall k | 0 <= k < |name| ensures name[k] != ' ' {
        assert !OccursAt(name, " ", k);
      }
      NoSpaceRun(name, [], true);
      assert name + [] == name;
    case Some(i) =>
      var w, rest := name[..i], name[i + 1..];
      forall k | 0 <= k < i ensures w[k] != ' ' {
        assert !OccursAt(name, " ", k);
      }
      assert Split(name, " ") == [w] + Split(rest, " ");
      assert Heads([w] + Split(rest, " ")) == [Head(w)] + Heads(Split(rest, " "));
      JoinCons(Head(w), Heads(Split(rest, " ")), "");
      HeadsAreWordStarts(rest);
      assert name == w + ([' '] + rest);
      NoSpaceRun(w, [' '] + rest, true);
      assert ([' '] + rest)[1..] == rest;
  }

  /** The initials are the first two word starts, upper-cased. */
  lemma InitialsAreWordStarts(name: string)
    ensures var starts := Upper(WordStarts(name, true));
            GetInitials(name) == starts[..if |starts| < 2 then |starts| else 2]
  {
    HeadsAreWordStarts(name);
  }

  /** A name of two space-free words separated by one space gives the two
      first letters, upper-cased. */
  lemma TwoWordInitials(first: string, last: string)
    requires first != [] && last != [] && ' ' !in first && ' ' !in last
    ensures GetInitials(first + " " + last) == [UpperChar(first[0]), UpperChar(last[0])]
  {
    InitialsAreWordStarts(first + " " + last);
    assert first + " " + last == first + ([' '] + last);
    NoSpaceRun(first, [' '] + last, true);
    assert ([' '] + last)[1..] == last;
    NoSpaceRun(last, [], true);
    assert last + [] == last;
  }

  /** A blank or empty name has no initials. */
  lemma {:induction false} NoWordNoInitials(name: string)
    requires forall k :: 0 <= k < |name| ==> name[k] == ' '
    ensures GetInitials(name) == ""
  {
    InitialsAreWordStarts(name);
    assert |WordStarts(name, true)| == 0 by { AllSpacesNoStarts(name, true); }
  }

  lemma {:induction false} AllSpacesNoStarts(s: string, atStart: bool)
    requires forall k :: 0 <= k < |s| ==> s[k] == ' '
    ensures WordStarts(s, atStart) == []
    decreases |s|
  {
    if s != [] {
      AllSpacesNoStarts(s[1..], true);
    }
  }

  const AdminColor := "bg-red-100 text-red-800 border-red-200"
  const ConsultantColor := "bg-blue-100 text-blue-800 border-blue-200"
  const OtherColor := "bg-gray-100 text-gray-800 border-gray-200"

  /** `getRoleColor`: the switch on `role.toLowerCase()`. */
  function RoleColor(role: string): (r: string)
    ensures r == AdminColor <==> Lower(role) == "admin"
    ensures r == ConsultantColor <==> Lower(role) == "consultant"
    ensures r == OtherColor <==> Lower(role) != "admin" && Lower(role) != "consultant"
  {
    match Lower(role)
    case "admin" => AdminColor
    case "consultant" => ConsultantColor
    case _ => OtherColor
  }

  /** The colour depends only on the role up to letter case. */
  lemma RoleColorIgnoresCase(role: string, other: string)
    requires |role| == |other|
    requires forall i :: 0 <= i < |role| ==> LowerChar(role[i]) == LowerChar(other[i])
    ensures RoleColor(role) == RoleColor(other)
  {
    assert Lower(role) == Lower(other);
  }

  /** `role.charAt(0).toUpperCase() + role.slice(1)`. */
  function RoleLabel(role: string): (r: string)
    ensures |r| == |role|
    ensures role != [] ==> r[0] == UpperChar(role[0]) && r[1..] == role[1..]
  {
    Upper(role[..if role == [] then 0 else 1]) + role[if role == [] then 0 else 1..]
  }

  /** Capitalising the label changes only letter case: the label is the
      same role for `getRoleColor`, and capitalising twice changes nothing. */
  lemma RoleLabelKeepsRole(role: string)
    ensures Lower(RoleLabel(role)) == Lower(role)
    ensures RoleColor(RoleLabel(role)) == RoleColor(role)
    ensures RoleLabel(RoleLabel(role)) == RoleLabel(role)
  {
    var l := RoleLabel(role);
    forall i | 0 <= i < |role| ensures LowerChar(l[i]) == LowerChar(role[i]) {
      if i > 0 {
        assert l[i] == l[1..][i - 1] == role[1..][i - 1] == role[i];
      }
    }
    RoleColorIgnoresCase(l, role);
  }

  /** The status badge's variant. */
  datatype Variant = Default | Secondary

  /** `{user.status && <Badge variant={user.status === 'active' ? 'default' : 'secondary'}>}`:
      `None` when no badge is rendered. */
  function StatusBadge(status: Option<string>): (r: Option<Variant>)
    ensures r.Some? <==> status.Some? && status.value != ""
    ensures r == Some(Default) <==> status == Some("active")
  {
    if status.None? || status.value == "" then None
    else if status.value == "active" then Some(Default)
    else Some(Secondary)
  }

  /** `handlePhotoUpload`: the file handed to `onPhotoUpload`, if the call
      is made at all. */
  method HandlePhotoUpload(files: Option<seq<File>>) returns (uploaded: Option<File>)
    ensures uploaded.Some? <==> files.Some? && |files.value| > 0
    ensures uploaded.Some? ==> uploaded.value == files.value[0]
  {
    uploaded := None;
    var file := FirstFile(files);
    if file.Some? {
      uploaded := file;
    }
  }
}
