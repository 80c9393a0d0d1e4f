/**
 * The editing state behind the key dialog: the accepted key pair, the two
 * key text fields, the cancelled flag, and the project and identity
 * selectors (each a list and a selected index, -1 for no selection).
 * The confirmation prompt and the node's key generator are inputs.
 */
module KeyDialogModel {
  import opened Optional
  import opened Entities
  import opened KeyStrings
  import opened NicknameOrder

  /** The user's answer to the "generate a new key pair?" prompt. */
  datatype ConfirmChoice = OkOption | CancelOption | ClosedOption

  /** What the node's key generator returns: an I/O failure, or the insert and request URIs. */
  datatype GeneratedKeys = GenerationIoError(message: string) | GeneratedKeyPair(insertUri: string, requestUri: string)

  /** How `actionGenerate` ended. `MalformedKey` is the exception a URI that cannot be sliced raises. */
  datatype GenerateOutcome = Declined | GenerationFailed(message: string) | MalformedKey | Regenerated

  /** An identity's URIs are equal to the dialog's private and public key (a `null` key equals nothing). */
  predicate MatchesKeys(identity: OwnIdentity, privateKey: Option<string>, publicKey: Option<string>)
  {
    privateKey == Some(identity.insertUri) && publicKey == Some(identity.requestUri)
  }

  /** `k` is the last position of an identity matching the keys, or -1 when none does. */
  predicate IsLastMatch(identities: seq<OwnIdentity>, k: int, privateKey: Option<string>, publicKey: Option<string>)
  {
    -1 <= k < |identities|
    && (k != -1 ==> MatchesKeys(identities[k], privateKey, publicKey))
    && forall j :: k < j < |identities| ==> !MatchesKeys(identities[j], privateKey, publicKey)
  }

  /** The selection loop of `setOwnIdentities`: every match overwrites the selection, so the last one wins. */
  method MatchingIdentityIndex(identities: seq<OwnIdentity>, privateKey: Option<string>, publicKey: Option<string>)
    returns (selectedIndex: int)
    ensures IsLastMatch(identities, selectedIndex, privateKey, publicKey)
  {
    selectedIndex := -1;
    var index := 0;
    while index < |identities|
      invariant 0 <= index <= |identities|
      invariant -1 <= selectedIndex < index
      invariant selectedIndex != -1 ==> MatchesKeys(identities[selectedIndex], privateKey, publicKey)
      invariant forall j :: selectedIndex < j < index ==> !MatchesKeys(identities[j], privateKey, publicKey)
    {
      if MatchesKeys(identities[index], privateKey, publicKey) {
        selectedIndex := index;
      }
      index := index + 1;
    }
  }

  /** When exactly one identity matches the keys, the selection loop picks that one. */
  lemma UniqueMatchIsSelected(identities: seq<OwnIdentity>, i: int, k: int, privateKey: Option<string>, publicKey: Option<string>)
    requires 0 <= i < |identities| && MatchesKeys(identities[i], privateKey, publicKey)
    requires forall j :: 0 <= j < |identities| && j != i ==> !MatchesKeys(identities[j], privateKey, publicKey)
    requires IsLastMatch(identities, k, privateKey, publicKey)
    ensures k == i
  {
  }

  /**
   * After copying the keys from the identity at `i`, the selection loop over
   * the same list selects `i` or a later identity with the same two URIs.
   */
  lemma CopiedIdentityIsReselected(identities: seq<OwnIdentity>, i: int, k: int)
    requires 0 <= i < |identities|
    requires IsLastMatch(identities, k, Some(identities[i].insertUri), Some(identities[i].requestUri))
    ensures i <= k
    ensures identities[k].insertUri == identities[i].insertUri && identities[k].requestUri == identities[i].requestUri
  {
  }

  class KeyDialog {
    /** The accepted keys; `None` while they are Java's initial `null`. */
    var publicKey: Option<string>
    var privateKey: Option<string>
    /** The contents of the two key text fields. */
    var publicKeyText: string
    var privateKeyText: string
    var cancelled: bool
    /** The project selector. */
    var projects: seq<Project>
    var projectIndex: int
    /** The own-identity selector. */
    var ownIdentities: seq<OwnIdentity>
    var identityIndex: int

    /** Each selector's index is -1 or a position in its list. */
    ghost predicate Valid()
      reads this
    {
      -1 <= projectIndex < |projects| && -1 <= identityIndex < |ownIdentities|
    }

    /** A new dialog: no keys, empty text fields, not cancelled, empty selectors. */
    constructor ()
      ensures Valid()
      ensures publicKey == None && privateKey == None
      ensures publicKeyText == "" && privateKeyText == ""
      ensures !cancelled
      ensures projects == [] && projectIndex == -1
      ensures ownIdentities == [] && identityIndex == -1
    {
      publicKey, privateKey := None, None;
      publicKeyText, privateKeyText := "", "";
      cancelled := false;
      projects, projectIndex := [], -1;
      ownIdentities, identityIndex := [], -1;
    }

    /** The project selector's selected item; `None` is the `null` it gives with no selection. */
    function SelectedProject(): (r: Option<Project>)
      reads this
      requires Valid()
      ensures r.None? <==> projectIndex == -1
      ensures r.Some? ==> r.value in projects
    {
      if projectIndex == -1 then None else Some(projects[projectIndex])
    }

    /** The identity selector's selected item; `None` is the `null` it gives with no selection. */
    function SelectedIdentity(): (r: Option<OwnIdentity>)
      reads this
      requires Valid()
      ensures r.None? <==> identityIndex == -1
      ensures r.Some? ==> r.value in ownIdentities
    {
      if identityIndex == -1 then None else Some(ownIdentities[identityIndex])
    }

    /**
     * The project selector listener's condition for enabling "copy from
     * project": a selected index above -1. The action itself starts enabled
     * and follows this condition from the first selector event on.
     */
    predicate CopyFromProjectEnabled()
      reads this
      requires Valid()
      ensures CopyFromProjectEnabled() <==> SelectedProject().Some?
    {
      projectIndex > -1
    }

    /**
     * The identity selector listener's condition for enabling "copy from
     * identity": a selected index above -1. The action itself starts enabled
     * and follows this condition from the first selector event on.
     */
    predicate CopyFromIdentityEnabled()
      reads this
      requires Valid()
      ensures CopyFromIdentityEnabled() <==> SelectedIdentity().Some?
    {
      identityIndex > -1
    }

    /** Sets the public key and shows it in its text field; a `null` key empties the field. */
    method SetPublicKey(key: Option<string>)
      modifies this`publicKey, this`publicKeyText
      ensures publicKey == key
      ensures publicKeyText == if key.Some? then key.value else ""
    {
      publicKey := key;
      publicKeyText := if key.Some? then key.value else "";
    }

    /** Sets the private key and shows it in its text field; a `null` key empties the field. */
    method SetPrivateKey(key: Option<string>)
      modifies this`privateKey, this`privateKeyText
      ensures privateKey == key
      ensures privateKeyText == if key.Some? then key.value else ""
    {
      privateKey := key;
      privateKeyText := if key.Some? then key.value else "";
    }

    /** The user types into the public key field. */
    method EditPublicKeyText(text: string)
      modifies this`publicKeyText
      ensures publicKeyText == text
    {
      publicKeyText := text;
    }

    /** The user types into the private key field. */
    method EditPrivateKeyText(text: string)
      modifies this`privateKeyText
      ensures privateKeyText == text
    {
      privateKeyText := text;
    }

    /** Replaces the projects, in the collection's iteration order, and clears the selection. */
    method SetProjects(newProjects: seq<Project>)
      requires Valid()
      modifies this`projects, this`projectIndex
      ensures Valid()
      ensures projects == newProjects && projectIndex == -1
    {
      projects := newProjects;
      projectIndex := -1;
    }

    /**
     * Replaces the identities, sorted by nickname ignoring case, and selects
     * the last one whose URIs equal the current keys (none if no one does).
     */
    method SetOwnIdentities(identities: seq<OwnIdentity>)
      requires Valid()
      modifies this`ownIdentities, this`identityIndex
      ensures Valid()
      ensures ownIdentities == SortByNickname(identities)
      ensures SortedByNickname(ownIdentities) && multiset(ownIdentities) == multiset(identities)
      ensures forall key :: WithFoldedNickname(ownIdentities, key) == WithFoldedNickname(identities, key)
      ensures IsLastMatch(ownIdentities, identityIndex, privateKey, publicKey)
    {
      ownIdentities := SortByNickname(identities);
      SortByNicknameSorted(identities);
      forall key ensures WithFoldedNickname(ownIdentities, key) == WithFoldedNickname(identities, key) {
        SortByNicknameStable(identities, key);
      }
      var selectedIndex := MatchingIdentityIndex(ownIdentities, privateKey, publicKey);
      identityIndex := selectedIndex;
    }

    /** The user picks a project (or, with -1, none). */
    method SelectProject(index: int)
      requires Valid() && -1 <= index < |projects|
      modifies this`projectIndex
      ensures Valid() && projectIndex == index
    {
      projectIndex := index;
    }

    /** The user picks an identity (or, with -1, none). */
    method SelectIdentity(index: int)
      requires Valid() && -1 <= index < |ownIdentities|
      modifies this`identityIndex
      ensures Valid() && identityIndex == index
    {
      identityIndex := index;
    }

    /** OK: accepts the text fields' contents as the keys. */
    method ActionOk()
      modifies this`publicKey, this`privateKey, this`cancelled
      ensures publicKey == Some(publicKeyText) && privateKey == Some(privateKeyText)
      ensures !cancelled
    {
      publicKey := Some(publicKeyText);
      privateKey := Some(privateKeyText);
      cancelled := false;
    }

    /** Cancel: marks the dialog cancelled; keys and text fields stay as they are. */
    method ActionCancel()
      modifies this`cancelled
      ensures cancelled
    {
      cancelled := true;
    }

    /** Closing the window is a cancel. */
    method WindowClosing()
      modifies this`cancelled
      ensures cancelled
    {
      ActionCancel();
    }

    /** Copies the selected project's URIs into the keys and the text fields; does nothing without a selection. */
    method ActionCopyFromProject()
      requires Valid()
      modifies this`publicKey, this`publicKeyText, this`privateKey, this`privateKeyText
      ensures Valid()
      ensures projectIndex == -1 ==> unchanged(this)
      ensures projectIndex != -1 ==>
        var project := projects[projectIndex];
        publicKey == Some(project.requestUri) && publicKeyText == project.requestUri
        && privateKey == Some(project.insertUri) && privateKeyText == project.insertUri
    {
      var project := SelectedProject();
      if project.None? {
        return;
      }
      SetPublicKey(Some(project.value.requestUri));
      SetPrivateKey(Some(project.value.insertUri));
    }

    /** Copies the selected identity's URIs into the keys and the text fields; does nothing without a selection. */
    method ActionCopyFromIdentity()
      requires Valid()
      modifies this`publicKey, this`publicKeyText, this`privateKey, this`privateKeyText
      ensures Valid()
      ensures identityIndex == -1 ==> unchanged(this)
      ensures identityIndex != -1 ==>
        var identity := ownIdentities[identityIndex];
        publicKey == Some(identity.requestUri) && publicKeyText == identity.requestUri
        && privateKey == Some(identity.insertUri) && privateKeyText == identity.insertUri
    {
      var identity := SelectedIdentity();
      if identity.None? {
        return;
      }
      SetPublicKey(Some(identity.value.requestUri));
      SetPrivateKey(Some(identity.value.insertUri));
    }

    /**
     * Generate: unless the user cancels the prompt, asks the node for a key
     * pair and shows the key bodies in the text fields (public first). The
     * accepted keys are not touched; only OK accepts the new text.
     */
    method ActionGenerate(choice: ConfirmChoice, generated: GeneratedKeys) returns (outcome: GenerateOutcome)
      modifies this`publicKeyText, this`privateKeyText
      ensures choice == CancelOption ==> outcome == Declined && unchanged(this)
      ensures choice != CancelOption && generated.GenerationIoError? ==>
        outcome == GenerationFailed(generated.message) && unchanged(this)
      ensures choice != CancelOption && generated.GeneratedKeyPair? ==>
        var publicBody, privateBody := KeyBody(generated.requestUri), KeyBody(generated.insertUri);
        publicKeyText == (if publicBody.Some? then publicBody.value else old(publicKeyText))
        && privateKeyText == (if publicBody.Some? && privateBody.Some? then privateBody.value else old(privateKeyText))
        && outcome == (if publicBody.Some? && privateBody.Some? then Regenerated else MalformedKey)
    {
      if choice == CancelOption {
        return Declined;
      }
      if generated.GenerationIoError? {
        return GenerationFailed(generated.message);
      }
      var publicBody := KeyBody(generated.requestUri);
      if publicBody.None? {
        return MalformedKey;
      }
      publicKeyText := publicBody.value;
      var privateBody := KeyBody(generated.insertUri);
      if privateBody.None? {
        return MalformedKey;
      }
      privateKeyText := privateBody.value;
      outcome := Regenerated;
    }
  }
}
