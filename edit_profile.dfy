/**
 * The profile editor: the name and phone fields start from the signed-in user, the
 * screen tracks whether they differ from those values, saving sends them trimmed,
 * and leaving with unsaved changes asks first. A picked photo is uploaded under a
 * file name and MIME type derived from its uri.
 */
module EditProfile {
  import opened Values
  import opened Text

  /** The fields of the signed-in user the screen reads. A missing user (`user?.`)
      is a user whose fields are all `None`. */
  datatype User = User(name: Option<string>, fullName: Option<string>, phone: Option<string>, email: Option<string>)

  /** `user?.name || user?.full_name || ''`. */
  function BaselineName(u: User): (n: string)
    ensures Truthy(u.name) ==> n == u.name.value
    ensures !Truthy(u.name) && Truthy(u.fullName) ==> n == u.fullName.value
    ensures !Truthy(u.name) && !Truthy(u.fullName) ==> n == ""
  {
    OrElse(Or(u.name, u.fullName), "")
  }

  /** `user?.phone || ''`. */
  function BaselinePhone(u: User): (p: string)
    ensures Truthy(u.phone) ==> p == u.phone.value
    ensures !Truthy(u.phone) ==> p == ""
  {
    OrElse(u.phone, "")
  }

  /** The effect that sets `hasChanges`. */
  predicate HasChanges(fullName: string, phone: string, u: User)
  {
    fullName != BaselineName(u) || phone != BaselinePhone(u)
  }

  /** The body of `PATCH /auth/profile`. */
  datatype ProfileUpdate = ProfileUpdate(name: string, phone: string)

  datatype CancelAction = ConfirmDiscard | GoBack

  /** `fullName || user?.email || 'U'`: the text the avatar initial comes from. */
  function InitialSource(fullName: string, u: User): (s: string)
    ensures s != ""
    ensures fullName != "" ==> s == fullName
    ensures fullName == "" && Truthy(u.email) ==> s == u.email.value
    ensures fullName == "" && !Truthy(u.email) ==> s == "U"
  {
    if fullName != "" then fullName else OrElse(u.email, "U")
  }

  /** `.charAt(0).toUpperCase()` of the initial's source. */
  function AvatarInitial(fullName: string, u: User): (r: string)
    ensures |r| == 1 && r[0] == UpperChar(InitialSource(fullName, u)[0])
  {
    [UpperChar(InitialSource(fullName, u)[0])]
  }

  /** With no name and no e-mail the initial is "U"; otherwise it is the upper-cased
      first letter of whichever comes first. */
  lemma InitialFallback(u: User)
    requires !Truthy(u.email)
    ensures AvatarInitial("", u) == "U"
    ensures forall n :: n != "" && 'a' <= n[0] <= 'z' ==> AvatarInitial(n, u)[0] == (n[0] as int - 32) as char
  {
  }

  /** The screen's state: the two fields and the flag the effect keeps in step with
      them. */
  class ProfileEditor {
    var user: User
    var fullName: string
    var phone: string
    var hasChanges: bool

    /** The effect has run: the flag says whether a field differs from the user. */
    predicate Valid()
      reads this
    {
      hasChanges == HasChanges(fullName, phone, user)
    }

    constructor (u: User)
      ensures Valid() && !hasChanges
      ensures user == u && fullName == BaselineName(u) && phone == BaselinePhone(u)
    {
      user := u;
      fullName := BaselineName(u);
      phone := BaselinePhone(u);
      hasChanges := false;
    }

    /** Typing in the name field, followed by the effect. */
    method SetFullName(text: string)
      modifies this
      ensures Valid()
      ensures fullName == text && phone == old(phone) && user == old(user)
    {
      fullName := text;
      hasChanges := fullName != BaselineName(user) || phone != BaselinePhone(user);
    }

    /** Typing in the phone field, followed by the effect. */
    method SetPhone(text: string)
      modifies this
      ensures Valid()
      ensures phone == text && fullName == old(fullName) && user == old(user)
    {
      phone := text;
      hasChanges := fullName != BaselineName(user) || phone != BaselinePhone(user);
    }

    /** `handleSave`: nothing without changes, otherwise the trimmed fields. */
    function Save(): (r: Option<ProfileUpdate>)
      reads this
      requires Valid()
      ensures r.None? <==> fullName == BaselineName(user) && phone == BaselinePhone(user)
      ensures r.Some? ==> r.value.name == Trim(fullName) && r.value.phone == Trim(phone)
    {
      if !hasChanges then None else Some(ProfileUpdate(Trim(fullName), Trim(phone)))
    }

    /** `handleCancel`: a confirmation exactly when there are unsaved changes. */
    function Cancel(): (a: CancelAction)
      reads this
      requires Valid()
      ensures a == ConfirmDiscard <==> fullName != BaselineName(user) || phone != BaselinePhone(user)
    {
      if hasChanges then ConfirmDiscard else GoBack
    }

    /** Typing a field back to its starting value leaves nothing to save, and what is
        saved is already trimmed. */
    lemma SaveAfterRevert()
      requires Valid()
      ensures fullName == BaselineName(user) && phone == BaselinePhone(user) ==> Save() == None && Cancel() == GoBack
      ensures Save().Some? ==> Trim(Save().value.name) == Save().value.name && Trim(Save().value.phone) == Save().value.phone
    {
      TrimIdempotent(fullName);
      TrimIdempotent(phone);
    }
  }

  // ---------------------------------------------------------------- avatar upload

  /** `s.split(sep).pop() || fallback`: the text after the last `sep`, or the fallback
      when that text is empty. */
  function LastSegmentOr(s: string, sep: char, fallback: string): (r: string)
    requires fallback != "" && sep !in fallback
    ensures r != "" && sep !in r
    ensures r == fallback || (|r| <= |s| && s[|s| - |r|..] == r)
  {
    LastSegmentShape(s, sep);
    OrElse(Some(LastSegment(s, sep)), fallback)
  }

  /** `uri.split('/').pop() || 'avatar.jpg'`. */
  function FileName(uri: string): string
  {
    LastSegmentOr(uri, '/', "avatar.jpg")
  }

  /** `fileName.split('.').pop() || 'jpg'`. */
  function Extension(fileName: string): string
  {
    LastSegmentOr(fileName, '.', "jpg")
  }

  /** `image/${fileExt === 'png' ? 'png' : 'jpeg'}`. */
  function Mime(ext: string): (m: string)
    ensures m == "image/png" <==> ext == "png"
    ensures m != "image/png" ==> m == "image/jpeg"
  {
    if ext == "png" then "image/png" else "image/jpeg"
  }

  /** `Platform.OS === 'ios' ? uri.replace('file://', '') : uri`. */
  function UploadUri(uri: string, isIos: bool): (u: string)
    ensures !isIos ==> u == uri
    ensures isIos && !Contains(uri, "file://") ==> u == uri
    ensures isIos && Contains(uri, "file://") ==>
      exists i ::
        OccursAt(uri, "file://", i) && u == uri[..i] + uri[i + 7..]
        && forall j :: 0 <= j < i ==> !OccursAt(uri, "file://", j)
  {
    if isIos then RemoveFirst(uri, "file://") else uri
  }

  /** The image part of the upload form. */
  datatype ImagePart = ImagePart(uri: string, name: string, mimeType: string)

  function AvatarPart(uri: string, isIos: bool): (p: ImagePart)
    ensures p.name == FileName(uri) && p.mimeType == Mime(Extension(FileName(uri)))
    ensures p.uri == UploadUri(uri, isIos)
  {
    ImagePart(UploadUri(uri, isIos), FileName(uri), Mime(Extension(FileName(uri))))
  }

  /** A photo at `dir/base.png` is uploaded as `base.png` of type PNG, and on iOS
      without its `file://` scheme. */
  lemma PngPhoto(dir: string, base: string, path: string, isIos: bool)
    requires '/' !in base && '.' !in base && base != ""
    requires path == dir + "/" + base + ".png"
    ensures AvatarPart("file://" + path, isIos).name == base + ".png"
    ensures AvatarPart("file://" + path, isIos).mimeType == "image/png"
    ensures isIos ==> AvatarPart("file://" + path, isIos).uri == path
  {
    var uri := "file://" + path;
    var name := base + ".png";
    assert '/' !in name;
    assert uri == ("file://" + dir) + ['/'] + name;
    FileNameAfter("file://" + dir, name);
    assert name == base + ['.'] + "png";
    ExtensionAfter(base, "png");
    RemoveFirstPrefix("file://", path);
  }

  /** The file name of a uri is what follows its last '/'. */
  lemma FileNameAfter(dir: string, name: string)
    requires '/' !in name && name != ""
    ensures FileName(dir + ['/'] + name) == name
  {
    LastSegmentAfter(dir, name, '/');
  }

  /** The extension of a file name is what follows its last '.'. */
  lemma ExtensionAfter(base: string, ext: string)
    requires '.' !in ext && ext != ""
    ensures Extension(base + ['.'] + ext) == ext
  {
    LastSegmentAfter(base, ext, '.');
  }

  /** A uri that ends with '/' has no file name and is uploaded as `avatar.jpg`, of
      type JPEG. */
  lemma DirectoryUri(dir: string)
    ensures AvatarPart(dir + "/", false).name == "avatar.jpg"
    ensures AvatarPart(dir + "/", false).mimeType == "image/jpeg"
  {
    LastSegmentAfter(dir, "", '/');
    assert dir + "/" == dir + ['/'] + "";
    LastSegmentAfter("avatar", "jpg", '.');
    assert "avatar.jpg" == "avatar" + ['.'] + "jpg";
  }

  /** A name without a '.' is its own extension, so it is uploaded as JPEG. */
  lemma NoDotIsJpeg(fileName: string)
    requires '.' !in fileName && fileName != "png"
    ensures Mime(Extension(fileName)) == "image/jpeg"
  {
    LastSegmentNoSep(fileName, '.');
  }
}
