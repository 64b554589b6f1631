/** The avatar: where its image comes from, and the initial shown when
    there is no image. */
module Avatar {
  import opened Wrappers
  import opened Text

  const DefaultInitials: string := "NV"
  const ImageFolder: string := "/src/assets/images/"

  /** `getInitials`: "NV" for an empty name, otherwise the first character
      in upper case. */
  function GetInitials(fullName: string): (r: string)
    ensures fullName == [] ==> r == DefaultInitials
    ensures fullName != [] ==> |r| == 1 && r[0] == UpperChar(fullName[0])
    ensures fullName != [] && 'a' <= fullName[0] <= 'z' ==> 'A' <= r[0] <= 'Z'
  {
    if fullName == [] then DefaultInitials else [UpperChar(fullName[0])]
  }

  /** The initial of a name is its own initial. */
  lemma InitialsStable(fullName: string)
    requires fullName != []
    ensures GetInitials(GetInitials(fullName)) == GetInitials(fullName)
  {
    var c := fullName[0];
    assert UpperChar(UpperChar(c)) == UpperChar(c);
  }

  /** Whether a source is a full URL. */
  predicate IsUrl(s: string) {
    StartsWith(s, "http") || StartsWith(s, "data:")
  }

  /** `getAvatarSrc`: no image for a missing or empty source; full URLs and
      paths are kept; a bare file name is looked up in the image folder. */
  function GetAvatarSrc(src: Option<string>): (r: Option<string>)
    ensures r.None? <==> src.None? || src.value == []
    ensures r.Some? ==> r.value == src.value || r.value == ImageFolder + src.value
    ensures r.Some? && (IsUrl(src.value) || Contains(src.value, "/")) ==> r == src
    ensures r.Some? && !IsUrl(src.value) && !Contains(src.value, "/") ==> r == Some(ImageFolder + src.value)
  {
    if src.None? || src.value == [] then None
    else if IsUrl(src.value) then src
    else if !Contains(src.value, "/") then Some(ImageFolder + src.value)
    else src
  }

  lemma FolderPathHasSlash(name: string)
    ensures Contains(ImageFolder + name, "/")
  {
    assert OccursAt(ImageFolder + name, "/", 0);
  }

  /** A resolved source is a URL or a path, so resolving it again keeps it. */
  lemma AvatarSrcIdempotent(src: Option<string>)
    ensures var r := GetAvatarSrc(src); r.Some? ==> IsUrl(r.value) || Contains(r.value, "/")
    ensures GetAvatarSrc(GetAvatarSrc(src)) == GetAvatarSrc(src)
  {
    if src.Some? && src.value != [] && !IsUrl(src.value) && !Contains(src.value, "/") {
      FolderPathHasSlash(src.value);
    }
  }

  /** The initials are shown from the start exactly when there is no image
      to show. */
  function FallbackShown(src: Option<string>): (r: bool)
    ensures r <==> src.None? || src.value == []
  {
    GetAvatarSrc(src).None?
  }
}
