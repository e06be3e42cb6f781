/**
 * Deriving the media host's public id of a stored image from the image's
 * URL, as the avatar and cover-image handlers do before deleting the old
 * file.
 */
module MediaKey {
  import opened Wrappers
  import opened Js

  /**
   * `url.split("/")`, last part, then `.split(".")[0]`: the text of the last
   * path segment up to its first dot. It contains neither a slash nor a dot
   * and is never longer than the URL.
   */
  function PublicId(url: string): (id: string)
    ensures '/' !in id && '.' !in id && |id| <= |url|
  {
    var urlParts := Split(url, '/');
    var withExtension := urlParts[|urlParts| - 1];
    SplitPartsAvoidSeparator(url, '/');
    SplitPartsAvoidSeparator(withExtension, '.');
    var idParts := Split(withExtension, '.');
    assert forall c :: c in idParts[0] ==> c in withExtension by {
      JoinSplit(withExtension, '.');
      PartsComeFromWhole(idParts, '.');
    }
    idParts[0]
  }

  /** Every character of a part occurs in the joined text. */
  lemma PartsComeFromWhole(parts: seq<string>, sep: char)
    requires |parts| >= 1
    ensures forall c :: c in parts[0] ==> c in Join(parts, sep)
  {
  }

  /**
   * For a URL of the form `<prefix>/<id>.<extension>`, where the id has no
   * slash or dot and the extension no slash, the derived public id is `id`.
   */
  lemma {:induction false} PublicIdOfHostedUrl(prefix: string, id: string, ext: string)
    requires '/' !in id && '.' !in id && '/' !in ext
    ensures PublicId(prefix + "/" + id + "." + ext) == id
  {
    var file := id + "." + ext;
    var url := prefix + "/" + id + "." + ext;
    assert url == prefix + ['/'] + file;
    assert '/' !in file;
    SplitAtSeparator(prefix, file, '/');
    SplitWithoutSeparator(file, '/');
    var urlParts := Split(url, '/');
    assert urlParts[|urlParts| - 1] == file;
    assert file == id + ['.'] + ext;
    SplitAtSeparator(id, ext, '.');
    SplitWithoutSeparator(id, '.');
  }

  /** A URL whose last segment has no extension: the public id is that whole segment. */
  lemma PublicIdWithoutExtension(prefix: string, id: string)
    requires '/' !in id && '.' !in id
    ensures PublicId(prefix + "/" + id) == id
  {
    assert prefix + "/" + id == prefix + ['/'] + id;
    SplitAtSeparator(prefix, id, '/');
    SplitWithoutSeparator(id, '/');
    SplitWithoutSeparator(id, '.');
  }

  /** A bare file name without any slash: the public id is the text before its first dot. */
  lemma {:induction false} PublicIdOfFileName(id: string, ext: string)
    requires '/' !in id && '.' !in id && '/' !in ext
    ensures PublicId(id + "." + ext) == id
  {
    var file := id + "." + ext;
    assert file == id + ['.'] + ext;
    assert '/' !in file;
    SplitWithoutSeparator(file, '/');
    SplitAtSeparator(id, ext, '.');
    SplitWithoutSeparator(id, '.');
  }

  /**
   * `if (oldUrl) publicId = PublicId(oldUrl)`: no id (JavaScript
   * `undefined`) when there is no old URL or it is the empty string.
   */
  function OldImageId(oldUrl: Option<string>): (id: Option<string>)
    ensures id.None? <==> oldUrl.None? || oldUrl.value == ""
    ensures id.Some? ==> '/' !in id.value && '.' !in id.value
  {
    if oldUrl.Some? && oldUrl.value != "" then Some(PublicId(oldUrl.value)) else None
  }
}
