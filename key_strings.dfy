/**
 * The two pure string formats of the key dialog: the key body cut out of a
 * generated key URI, and the label an own identity is shown with.
 */
module KeyStrings {
  import opened Optional
  import opened Entities
  import opened JavaStrings

  /**
   * The text `actionGenerate` puts into a key field: the part of a generated
   * URI after its first '@' and before its last '/'. `None` is the exception
   * `substring` throws when there is no '/' or no '/' follows the first '@'.
   */
  function KeyBody(uri: string): (r: Option<string>)
    ensures r.Some? ==> |r.value| < |uri|
    ensures '@' !in uri && '/' in uri ==> r.Some?
  {
    Substring(uri, IndexOf(uri, '@') + 1, LastIndexOf(uri, '/'))
  }

  /** A key URI `<scheme>@<body>/<document name>` yields its body, whatever '@' and '/' the body holds. */
  lemma KeyBodyOfKeyUri(scheme: string, body: string, documentName: string)
    requires '@' !in scheme && '/' !in documentName
    ensures KeyBody(scheme + "@" + body + "/" + documentName) == Some(body)
  {
    var uri := scheme + "@" + body + "/" + documentName;
    var at, slash := |scheme|, |scheme| + 1 + |body|;
    assert uri[at] == '@' && uri[..at] == scheme;
    assert uri[slash] == '/' && uri[slash + 1..] == documentName;
    assert IndexOf(uri, '@') == at;
    assert LastIndexOf(uri, '/') == slash;
    assert uri[at + 1..slash] == body;
  }

  /** Without any '@', the body is everything before the last '/'. */
  lemma KeyBodyOfSchemelessUri(body: string, documentName: string)
    requires '@' !in body && '@' !in documentName && '/' !in documentName
    ensures KeyBody(body + "/" + documentName) == Some(body)
  {
    var uri := body + "/" + documentName;
    assert uri[|body|] == '/' && uri[|body| + 1..] == documentName;
    assert forall i :: 0 <= i < |uri| && i != |body| ==> uri[i] != '@' by {
      forall i | 0 <= i < |uri| && i != |body| ensures uri[i] != '@' {
        if i < |body| { assert uri[i] == body[i]; } else { assert uri[i] == documentName[i - |body| - 1]; }
      }
    }
    assert '@' !in uri;
    assert LastIndexOf(uri, '/') == |body|;
    assert uri[..|body|] == body;
  }

  /** The slicing succeeds exactly when some '/' follows the first '@', or when there is a '/' and no '@'. */
  lemma KeyBodyDefined(uri: string)
    ensures KeyBody(uri).Some? <==>
      exists j :: 0 <= j < |uri| && uri[j] == '/' && ('@' in uri[..j] || '@' !in uri)
  {
    var at, slash := IndexOf(uri, '@'), LastIndexOf(uri, '/');
    if KeyBody(uri).Some? {
      assert slash != -1 && uri[slash] == '/';
      if at != -1 {
        assert uri[..slash][at] == '@';
      }
      assert '@' in uri[..slash] || '@' !in uri;
    } else if slash != -1 {
      assert at != -1 && slash < at;
      forall j | 0 <= j < |uri| && uri[j] == '/' ensures '@' !in uri[..j] {
        assert j <= slash;
        assert uri[..j] == uri[..at][..j];
      }
    }
  }

  /**
   * The label the identity selector shows for an item: `nickname (request URI
   * up to its first ',')`, the empty text for no item, and `None` for the
   * exception `substring` throws when the request URI holds no ','.
   */
  function IdentityLabel(item: Option<OwnIdentity>): (r: Option<string>)
    ensures item.None? ==> r == Some("")
    ensures r.None? <==> item.Some? && ',' !in item.value.requestUri
  {
    match item
    case None => Some("")
    case Some(identity) =>
      match Substring(identity.requestUri, 0, IndexOf(identity.requestUri, ','))
      case None => None
      case Some(prefix) => Some(identity.nickname + " (" + prefix + ")")
  }

  /** The label of an identity whose request URI is `prefix,rest` with no ',' in `prefix`. */
  lemma IdentityLabelFormat(nickname: string, prefix: string, rest: string, insertUri: string)
    requires ',' !in prefix
    ensures IdentityLabel(Some(OwnIdentity(nickname, prefix + "," + rest, insertUri)))
         == Some(nickname + " (" + prefix + ")")
  {
    var uri := prefix + "," + rest;
    assert uri[|prefix|] == ',' && uri[..|prefix|] == prefix;
    assert IndexOf(uri, ',') == |prefix|;
  }
}
