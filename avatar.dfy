/**
 * Fallback avatars: the initials and palette colour derived from a user's name, used both
 * for the UI Avatars URL and for the inline SVG circle.
 */
module Avatar {
  import opened Common

  /** The eight background colours of the UI Avatars URL. */
  const UrlColors: seq<string> :=
    ["4F46E5", "7C3AED", "EC4899", "F59E0B", "10B981", "3B82F6", "EF4444", "8B5CF6"]

  /** The same eight colours, as the SVG fill writes them. */
  const SvgColors: seq<string> :=
    ["#4F46E5", "#7C3AED", "#EC4899", "#F59E0B", "#10B981", "#3B82F6", "#EF4444", "#8B5CF6"]

  /** A JavaScript string used as a condition: present and not empty. */
  predicate Truthy(s: Option<string>)
  {
    s.Some? && s.value != ""
  }

  /** `n[0]` of one piece, joined: an empty piece contributes nothing. */
  function FirstChar(piece: string): (r: string)
    ensures |r| <= 1
    ensures piece != [] ==> r == [piece[0]]
    ensures piece == [] ==> r == []
  {
    if piece == [] then [] else [piece[0]]
  }

  /**
   * The initials: the first character of every space-separated piece, upper-cased, at most
   * two of them; a missing or empty name gives `?`.
   */
  function Initials(name: Option<string>): (r: string)
    ensures |r| <= 2
    ensures !Truthy(name) ==> r == "?"
  {
    if !Truthy(name) then "?"
    else
      var letters := Upper(FlatMap(Explode(name.value, ' '), FirstChar));
      letters[..if |letters| < 2 then |letters| else 2]
  }

  /** Every initial is the upper-cased first character of one of the name's pieces. */
  lemma InitialsComeFromPieces(name: string, i: nat)
    requires name != [] && i < |Initials(Some(name))|
    ensures exists piece :: (piece in Explode(name, ' ') && piece != []
                              && Initials(Some(name))[i] == UpperChar(piece[0]))
  {
    var pieces := Explode(name, ' ');
    var firsts := FlatMap(pieces, FirstChar);
    var c := firsts[i];
    assert Initials(Some(name))[i] == UpperChar(c);
    FlatMapMembers(pieces, FirstChar, c);
    var piece :| piece in pieces && c in FirstChar(piece);
    assert piece != [] && c == piece[0];
  }

  /** A first and last name give the first letter of each, upper-cased. */
  lemma TwoWordInitials(first: string, last: string)
    requires first != [] && last != [] && ' ' !in first && ' ' !in last
    ensures Initials(Some(first + " " + last)) == [UpperChar(first[0]), UpperChar(last[0])]
  {
    var name := first + " " + last;
    ExplodeAfterPrefix(first, ' ', last);
    ExplodeWithoutSeparator(last, ' ');
    assert first + [' '] + last == name;
    assert Explode(name, ' ') == [first] + [last];
    FlatMapSnoc([first], last, FirstChar);
    FlatMapSnoc([], first, FirstChar);
    assert [] + [first] == [first];
    assert FlatMap(Explode(name, ' '), FirstChar) == [first[0], last[0]];
  }

  /** A name of spaces only is truthy, yet every piece is empty: the initials are empty, not `?`. */
  lemma SpaceNameHasNoInitials()
    ensures Initials(Some(" ")) == ""
  {
    var name := " ";
    ExplodeAfterPrefix("", ' ', "");
    assert "" + [' '] + "" == name;
    assert Explode(name, ' ') == [""] + [""];
    FlatMapSnoc([""], "", FirstChar);
    FlatMapSnoc([], "", FirstChar);
    assert [] + [""] == [""];
  }

  /** `name.charCodeAt(0) % colors.length`, or 0 without a name. */
  function ColorIndex(name: Option<string>): (i: nat)
    ensures i < |UrlColors| && i < |SvgColors|
    ensures !Truthy(name) ==> i == 0
  {
    if !Truthy(name) then 0 else (name.value[0] as int) % 8
  }

  /** The two palettes are the same colours. */
  lemma PalettesAgree(i: nat)
    requires i < |UrlColors|
    ensures SvgColors[i] == "#" + UrlColors[i]
  {
  }

  /** The parameters of the avatar `getAvatarUrl` points at. */
  datatype AvatarUrl = Uploaded(url: string) | Placeholder(initials: string, size: int, background: string)

  /** `getAvatarUrl`: an uploaded avatar wins; otherwise a placeholder for the name. */
  function GetAvatarUrl(avatarUrl: Option<string>, name: Option<string>, size: int): (r: AvatarUrl)
    ensures Truthy(avatarUrl) <==> r.Uploaded?
    ensures r.Uploaded? ==> r.url == avatarUrl.value
    ensures r.Placeholder? ==> r.size == size && |r.initials| <= 2 && r.background in UrlColors
  {
    if Truthy(avatarUrl) then Uploaded(avatarUrl.value)
    else Placeholder(Initials(name), size, UrlColors[ColorIndex(name)])
  }

  /** The circle `generateDataUriAvatar` draws. */
  datatype Circle = Circle(size: int, fill: string, initials: string)

  function GenerateDataUriAvatar(name: Option<string>, size: int): (r: Circle)
    ensures r.size == size && r.fill in SvgColors
  {
    Circle(size, SvgColors[ColorIndex(name)], Initials(name))
  }

  /** Without an uploaded avatar, both helpers draw the same initials on the same colour. */
  lemma SameAvatarBothWays(avatarUrl: Option<string>, name: Option<string>, size: int)
    requires !Truthy(avatarUrl)
    ensures var u, c := GetAvatarUrl(avatarUrl, name, size), GenerateDataUriAvatar(name, size);
      u.Placeholder? && u.initials == c.initials && c.fill == "#" + u.background
  {
    PalettesAgree(ColorIndex(name));
  }
}
