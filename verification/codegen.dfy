/** The record codes the save hooks assign to new documents: the prefix followed by 100
    for the first document, and otherwise the prefix followed by one more than the number
    `parseInt` reads from the newest document's code once as many characters as the
    prefix has are sliced off. */
module CodeGen {
  import opened Base
  import opened Types
  import opened Numbers

  const UserPrefix := "USR"
  const ArtistPrefix := "SPLE"
  const SamplePrefix := "SPLE"

  /** `s.slice(k)`: what follows the first `k` characters, or nothing. */
  function SliceFrom(s: string, k: nat): (r: string)
    ensures |s| >= k ==> s == s[..k] + r
    ensures |s| < k ==> r == ""
  {
    if |s| >= k then s[k..] else ""
  }

  /** The error of calling `.slice` on the missing code of the newest document: a
      `TypeError`, which has a class name but no code. */
  const MissingCode := Failure("Cannot read properties of undefined (reading 'slice')", None, NoCode)
  const MissingCodeName := "TypeError"

  /** The code given to a new document. `newest` is what the hook's
      `findOne({}, {code: 1}).sort({createdAt: -1})` finds: no document, or the newest
      document's code, which may be missing. A number `parseInt` cannot read gives `NaN`,
      and `NaN + 1` renders as `NaN`. */
  function NextCode(prefix: string, newest: Option<Option<string>>): (r: Settle<string>)
    ensures newest.None? ==> r == Resolves(prefix + "100")
    ensures newest == Some(None) ==> r == Rejects(MissingCode)
    ensures newest.Some? && newest.value.Some? ==>
      r.Resolves? && prefix <= r.value
      && (ParseInt(SliceFrom(newest.value.value, |prefix|)).None? <==> r.value == prefix + "NaN")
    ensures !r.NeverSettles?
  {
    match newest
    case None => Resolves(prefix + "100")
    case Some(None) => Rejects(MissingCode)
    case Some(Some(code)) =>
      match ParseInt(SliceFrom(code, |prefix|))
      case None =>
        Resolves(prefix + "NaN")
      case Some(n) =>
        var digits := IntToString(n + 1);
        assert (prefix + digits)[|prefix|..] == digits;
        NaNIsNotAnInteger(n + 1);
        Resolves(prefix + digits)
  }

  lemma NaNIsNotAnInteger(i: int)
    ensures IntToString(i) != "NaN"
  {
    if i < 0 {
      assert IntToString(i)[0] == '-';
    } else {
      assert IsDigit(IntToString(i)[0]);
    }
  }

  /** A code the generator wrote is read back as the number it carries, so the next
      document gets the successor. */
  lemma {:induction false} NextCodeSucceeds(prefix: string, n: int)
    ensures NextCode(prefix, Some(Some(prefix + IntToString(n)))) == Resolves(prefix + IntToString(n + 1))
  {
    var code := prefix + IntToString(n);
    assert SliceFrom(code, |prefix|) == IntToString(n);
    ParseIntOfIntToString(n);
  }

  /** Once a newest code carries no number, every later code is `NaN` as well. */
  lemma NaNIsSticky(prefix: string)
    ensures NextCode(prefix, Some(Some(prefix + "NaN"))) == Resolves(prefix + "NaN")
  {
    var code := prefix + "NaN";
    assert SliceFrom(code, |prefix|) == "NaN";
    assert TrimStart("NaN") == "NaN";
    assert LeadingDigits("NaN") == "";
  }

  /** The codes `k` documents get when they are saved one after another into an empty
      collection, each hook finding the previous document as the newest. */
  function CodesFromEmpty(prefix: string, k: nat): (r: seq<string>)
    ensures |r| == k
  {
    if k == 0 then []
    else
      var earlier := CodesFromEmpty(prefix, k - 1);
      var newest: Option<Option<string>> := if k == 1 then None else Some(Some(earlier[k - 2]));
      var next := NextCode(prefix, newest);
      earlier + [if next.Resolves? then next.value else ""]
  }

  /** The i-th document saved into an empty collection gets the prefix followed by 100 + i. */
  lemma {:induction false} CodesCount(prefix: string, k: nat)
    ensures forall i :: 0 <= i < k ==> CodesFromEmpty(prefix, k)[i] == prefix + IntToString(100 + i)
  {
    if k > 0 {
      CodesCount(prefix, k - 1);
      var earlier := CodesFromEmpty(prefix, k - 1);
      var r := CodesFromEmpty(prefix, k);
      assert r[..k - 1] == earlier;
      if k == 1 {
        Hundred();
      } else {
        NextCodeSucceeds(prefix, 100 + (k - 2));
      }
      forall i | 0 <= i < k
        ensures r[i] == prefix + IntToString(100 + i)
      {
        if i < k - 1 {
          assert r[i] == earlier[i];
        }
      }
    }
  }

  lemma Hundred()
    ensures IntToString(100) == "100"
  {
    assert NatToString(1) == "1";
    assert NatToString(10) == "10";
  }

  /** Artists and samples use the same prefix, so the i-th artist and the i-th sample get
      the same code. */
  lemma ArtistAndSampleCodesCoincide(k: nat)
    ensures CodesFromEmpty(ArtistPrefix, k) == CodesFromEmpty(SamplePrefix, k)
  {
  }
}
