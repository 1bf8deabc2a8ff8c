/** Whether a backup may be restored, and on whose authority. The HMAC verifier is a parameter that may throw. */
module BackupSignature {
  import opened Options

  datatype Source = Account | File

  /** One unwrapped backup wrapping key, known by a number, and where it came from. */
  datatype Key = Key(source: Source, bwk: nat)

  datatype Verdict = Verified | SignatureMismatch | Unsigned | SelfSigned

  datatype Check = Agrees | Disagrees | Throws

  /** What checking the file's signature under a key comes to. */
  type Verifier = nat -> Check

  function Classify(signaturePresent: bool, verifiedUnder: Option<Source>): Verdict {
    if !signaturePresent then Unsigned
    else
      match verifiedUnder
      case Some(Account) => Verified
      case Some(File) => SelfSigned
      case None => SignatureMismatch
  }

  predicate AgreesAt(keys: seq<Key>, verify: Verifier, i: nat) {
    i < |keys| && verify(keys[i].bwk) == Agrees
  }

  predicate FirstAgrees(keys: seq<Key>, verify: Verifier, i: nat) {
    AgreesAt(keys, verify, i) && forall j :: 0 <= j < i ==> !AgreesAt(keys, verify, j)
  }

  function Resolve(signed: bool, keys: seq<Key>, verify: Verifier): Verdict {
    if !signed then Unsigned
    else if keys == [] then SignatureMismatch
    else if verify(keys[0].bwk) == Agrees then Classify(true, Some(keys[0].source))
    else Resolve(signed, keys[1..], verify)
  }

  /** The loop over the keys: a check that throws counts as a disagreement, and the next key is tried. */
  method ResolveBackupSignature(signed: bool, keys: seq<Key>, verify: Verifier) returns (verdict: Verdict)
    ensures verdict == Resolve(signed, keys, verify)
    ensures !signed ==> verdict == Unsigned
    ensures signed && verdict != SignatureMismatch ==>
              exists i: nat :: FirstAgrees(keys, verify, i) && verdict == Classify(true, Some(keys[i].source))
    ensures signed ==> (verdict == SignatureMismatch <==> forall i: nat :: !AgreesAt(keys, verify, i))
  {
    if !signed {
      return Classify(false, None);
    }
    for i := 0 to |keys|
      invariant forall j :: 0 <= j < i ==> !AgreesAt(keys, verify, j)
      invariant Resolve(true, keys, verify) == Resolve(true, keys[i..], verify)
    {
      var agreed := false;
      match verify(keys[i].bwk) {
        case Agrees => agreed := true;
        case Disagrees =>
        case Throws => agreed := false;
      }
      if agreed {
        assert FirstAgrees(keys, verify, i);
        return Classify(true, Some(keys[i].source));
      }
    }
    return Classify(true, None);
  }

  /** The verdict of a signed file is the classification of the first key that agrees, wherever it is in the list. */
  lemma {:induction false} FirstAgreeingKeyDecides(keys: seq<Key>, verify: Verifier, i: nat)
    requires FirstAgrees(keys, verify, i)
    ensures Resolve(true, keys, verify) == Classify(true, Some(keys[i].source))
  {
    if i > 0 {
      assert !AgreesAt(keys, verify, 0);
      forall j | 0 <= j < i - 1 ensures !AgreesAt(keys[1..], verify, j) {
        assert !AgreesAt(keys, verify, j + 1);
      }
      FirstAgreeingKeyDecides(keys[1..], verify, i - 1);
    }
  }

  lemma {:induction false} NoKeyAgrees(keys: seq<Key>, verify: Verifier)
    requires forall i: nat :: !AgreesAt(keys, verify, i)
    ensures Resolve(true, keys, verify) == SignatureMismatch
  {
    if keys != [] {
      assert !AgreesAt(keys, verify, 0);
      forall j: nat ensures !AgreesAt(keys[1..], verify, j) {
        assert !AgreesAt(keys, verify, j + 1);
      }
      NoKeyAgrees(keys[1..], verify);
    }
  }

  lemma {:induction false} FindFirst(keys: seq<Key>, verify: Verifier, k: nat) returns (i: nat)
    requires AgreesAt(keys, verify, k)
    ensures i <= k && FirstAgrees(keys, verify, i)
  {
    if j: nat :| j < k && AgreesAt(keys, verify, j) {
      i := FindFirst(keys, verify, j);
    } else {
      i := k;
    }
  }

  // ---------- Whose authority ----------

  ghost predicate SomeKeyAgrees(keys: seq<Key>, verify: Verifier, source: Source) {
    exists i: nat :: AgreesAt(keys, verify, i) && keys[i].source == source
  }

  predicate AccountFirst(keys: seq<Key>) {
    forall i, j :: 0 <= i < j < |keys| && keys[j].source == Account ==> keys[i].source == Account
  }

  /** In whatever order, a file is verified only if some key of the account agrees. */
  lemma VerifiedNeedsTheAccount(signed: bool, keys: seq<Key>, verify: Verifier)
    requires Resolve(signed, keys, verify) == Verified
    ensures signed && SomeKeyAgrees(keys, verify, Account)
  {
    if forall i: nat :: !AgreesAt(keys, verify, i) {
      NoKeyAgrees(keys, verify);
    } else {
      var k: nat :| AgreesAt(keys, verify, k);
      var i := FindFirst(keys, verify, k);
      FirstAgreeingKeyDecides(keys, verify, i);
      assert AgreesAt(keys, verify, i) && keys[i].source == Account;
    }
  }

  /** With the account's keys first, a file is verified if and only if it is signed and some key of the account agrees. */
  lemma VerifiedIff(signed: bool, keys: seq<Key>, verify: Verifier)
    requires AccountFirst(keys)
    ensures Resolve(signed, keys, verify) == Verified <==> signed && SomeKeyAgrees(keys, verify, Account)
  {
    if Resolve(signed, keys, verify) == Verified {
      VerifiedNeedsTheAccount(signed, keys, verify);
    } else if signed && SomeKeyAgrees(keys, verify, Account) {
      var k: nat :| AgreesAt(keys, verify, k) && keys[k].source == Account;
      var i := FindFirst(keys, verify, k);
      assert keys[i].source == Account;
      FirstAgreeingKeyDecides(keys, verify, i);
    }
  }

  /** With the account's keys first, the other verdicts: self-signed when only a key of the file agrees, a mismatch when none does. */
  lemma OtherVerdictsIff(keys: seq<Key>, verify: Verifier)
    requires AccountFirst(keys)
    ensures Resolve(true, keys, verify) == SelfSigned <==>
              SomeKeyAgrees(keys, verify, File) && !SomeKeyAgrees(keys, verify, Account)
    ensures Resolve(true, keys, verify) == SignatureMismatch <==>
              !SomeKeyAgrees(keys, verify, File) && !SomeKeyAgrees(keys, verify, Account)
  {
    VerifiedIff(true, keys, verify);
    if k: nat :| AgreesAt(keys, verify, k) {
      var i := FindFirst(keys, verify, k);
      FirstAgreeingKeyDecides(keys, verify, i);
      assert SomeKeyAgrees(keys, verify, keys[i].source);
    } else {
      NoKeyAgrees(keys, verify);
    }
  }

  /** Appending keys a file supplies never makes a file verified, nor stops one being verified. */
  lemma FileKeysChangeNothing(signed: bool, keys: seq<Key>, extra: seq<Key>, verify: Verifier)
    requires AccountFirst(keys) && forall k :: 0 <= k < |extra| ==> extra[k].source == File
    ensures Resolve(signed, keys + extra, verify) == Verified <==> Resolve(signed, keys, verify) == Verified
  {
    var all := keys + extra;
    VerifiedIff(signed, keys, verify);
    VerifiedIff(signed, all, verify);
    if i: nat :| AgreesAt(keys, verify, i) && keys[i].source == Account {
      assert AgreesAt(all, verify, i) && all[i].source == Account;
    }
    if i: nat :| AgreesAt(all, verify, i) && all[i].source == Account {
      assert i < |keys| && AgreesAt(keys, verify, i);
    }
  }

  /** The order is what counts: with the file's key first, a file both keys agree with is self-signed, not verified. */
  lemma FileKeyFirstIsSelfSigned(account: nat, file: nat, verify: Verifier)
    requires verify(account) == Agrees && verify(file) == Agrees
    ensures Resolve(true, [Key(File, file), Key(Account, account)], verify) == SelfSigned
    ensures Resolve(true, [Key(Account, account), Key(File, file)], verify) == Verified
  {
  }
}
