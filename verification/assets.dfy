/** How the pages turn a stored file reference into a URL: a reference to
    the server's uploads directory is fetched from the API server's origin,
    anything else (an absolute URL typed by an admin) is used as it is. */
module Assets {
  import opened Text
  import opened Uploads

  const ServerOrigin: string := "http://localhost:5000"
  const UploadsPrefix: string := "/uploads"

  /** `path.startsWith('/uploads') ? 'http://localhost:5000' + path : path`. */
  function AssetUrl(path: string): (url: string)
    ensures StartsWith(path, UploadsPrefix) ==> url == ServerOrigin + path
    ensures !StartsWith(path, UploadsPrefix) ==> url == path
  {
    if StartsWith(path, UploadsPrefix) then ServerOrigin + path else path
  }

  /** The URL always ends with the reference, and is empty only for an
      empty reference. */
  lemma AssetUrlKeepsPath(path: string)
    ensures EndsWith(AssetUrl(path), path)
    ensures AssetUrl(path) == "" <==> path == ""
  {
    var url := AssetUrl(path);
    assert url[|url| - |path|..] == path;
  }

  /** A resolved URL resolves to itself: the server origin does not start
      with the uploads prefix. */
  lemma AssetUrlIdempotent(path: string)
    ensures AssetUrl(AssetUrl(path)) == AssetUrl(path)
  {
    if StartsWith(path, UploadsPrefix) {
      var url := ServerOrigin + path;
      assert url[1] != UploadsPrefix[1];
    }
  }

  /** A prefix of a prefix is a prefix. */
  lemma PrefixOfPrefix(s: string, p: string, q: string)
    requires StartsWith(s, p) && StartsWith(p, q)
    ensures StartsWith(s, q)
  {
    assert s[..|q|] == s[..|p|][..|q|];
  }

  /** Every file an upload route stored is fetched from the API server. */
  lemma StoredUploadsResolveToServer(c: Category, f: UploadedFile, time: nat, random: nat)
    ensures AssetUrl(ReferencePath(c, f, time, random)) == ServerOrigin + ReferencePath(c, f, time, random)
  {
    var r := ReferencePath(c, f, time, random);
    var full := UploadsDir + (NamePrefix(c) + "-");
    assert StartsWith(full, UploadsDir) by {
      assert full[..|UploadsDir|] == UploadsDir;
    }
    PrefixOfPrefix(r, full, UploadsDir);
    assert StartsWith(UploadsDir, UploadsPrefix);
    PrefixOfPrefix(r, UploadsDir, UploadsPrefix);
  }
}
