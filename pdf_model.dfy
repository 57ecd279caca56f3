/** Shared vocabulary of the PDF tool pages.

    A document is abstract: a sequence of pages, each with a rotation angle and
    content that the model never looks into. The document library the pages call
    (load, save, embed an image) is a bundle of functions that may fail, passed to
    every handler as a parameter. The module also holds the few JavaScript
    primitives whose exact behaviour the pages depend on (truncating remainder,
    substring search, decimal rendering of a number) and the vocabulary of a run:
    status labels, notifications and the result blob. */
module PdfModel {

  newtype Byte = x: int | 0 <= x < 256
  type Bytes = seq<Byte>

  datatype Option<T> = None | Some(value: T)

  /** The outcome of a library call: a value, or the text of the error it threw. */
  datatype Result<T> = Ok(value: T) | Err(message: string)

  /** An image embedded into a document, with its native pixel size. */
  datatype Image = Image(width: nat, height: nat, source: Bytes)

  datatype Content =
    | Imported(token: nat)                                             // content read from a file, opaque here
    | Picture(image: Image, x: int, y: int, width: int, height: int)   // an image drawn onto the page

  /** One page: its rotation in degrees, its media size and its content. */
  datatype Page = Page(angle: int, width: int, height: int, content: Content)

  type Document = seq<Page>

  /** The document library and the zip library's archive generation as the pages
      use them; every call may throw. */
  datatype Codec = Codec(
    load: Bytes -> Result<Document>,
    loadIgnoringEncryption: Bytes -> Result<Document>,
    save: Document -> Result<Bytes>,
    saveWithObjectStreams: Document -> Result<Bytes>,
    embedJpg: Bytes -> Result<Image>,
    embedPng: Bytes -> Result<Image>,
    zip: seq<ZipEntry> -> Result<Bytes>)

  /** Copying pages by index into another document: fails on an index that names no page. */
  predicate IndicesInRange(doc: Document, indices: seq<int>)
  {
    forall k :: 0 <= k < |indices| ==> 0 <= indices[k] < |doc|
  }

  function CopyPages(doc: Document, indices: seq<int>): (r: Result<Document>)
    ensures r.Ok? <==> IndicesInRange(doc, indices)
    ensures r.Ok? ==> |r.value| == |indices|
    ensures r.Ok? ==> forall k :: 0 <= k < |indices| ==> r.value[k] == doc[indices[k]]
  {
    if IndicesInRange(doc, indices) then
      Ok(seq(|indices|, k requires 0 <= k < |indices| => doc[indices[k]]))
    else
      Err("page index out of range")
  }

  /** The indices 0 .. count-1 of every page of a document of count pages. */
  function AllIndices(count: nat): (r: seq<int>)
    ensures |r| == count && forall k :: 0 <= k < count ==> r[k] == k
  {
    seq(count, k requires 0 <= k < count => k)
  }

  lemma CopyAllPages(doc: Document)
    ensures CopyPages(doc, AllIndices(|doc|)) == Ok(doc)
  {
    var r := CopyPages(doc, AllIndices(|doc|));
    assert r.Ok?;
    assert r.value == doc;
  }

  /** A named file inside a zip archive. */
  datatype ZipEntry = ZipEntry(name: string, data: Bytes)

  /** The result of a run: a PDF document, or a zip archive with its entries and
      the bytes the archive was generated as. */
  datatype Blob = PdfBlob(bytes: Bytes) | ZipBlob(entries: seq<ZipEntry>, archive: Bytes)

  /** A save-as request: the blob and the file name it is offered under. */
  datatype SaveAs = SaveAs(blob: Blob, fileName: string)

  /** The phase label a page shows beside its progress bar. */
  datatype Status =
    | Blank
    | Starting
    | CreatingPdf
    | LoadingPdf
    | ApplyingRotations
    | ApplyingProtection
    | Encrypting
    | Processing
    | Optimizing
    | TryingToUnlock
    | RemovingProtection
    | ProcessingFile(name: string)
    | ProcessingImage(index: nat, count: nat)
    | ExtractingPage(index: nat)
    | CreatingZip
    | Finishing
    | Done

  /** The notification a handler raises, if any. */
  datatype Notice =
    | Silent
    | Succeeded
    | ProtectedWithoutEncryption   // success, with the note that no encryption was applied
    | Failed
    | LoadFailed
    | NeedTwoFiles
    | NeedSelectedPage
    | NeedPassword
    | PasswordMismatch
    | PasswordTooShort
    | WrongPassword

  // ---------------------------------------------------------------------------
  // Progress sequences

  /** Every later value is strictly larger. */
  ghost predicate Increasing(s: seq<real>)
  {
    forall i, j :: 0 <= i < j < |s| ==> s[i] < s[j]
  }

  /** No later value is smaller. */
  ghost predicate NonDecreasing(s: seq<real>)
  {
    forall i, j :: 0 <= i < j < |s| ==> s[i] <= s[j]
  }

  /** The progress a loop sets on iteration k: (k + 1) / denominator * scale. */
  function Fraction(k: nat, denominator: nat, scale: real): real
    requires denominator > 0
  {
    (k + 1) as real / denominator as real * scale
  }

  /** The progress values of a run that starts at 0 and has done i loop iterations. */
  function Ramp(i: nat, denominator: nat, scale: real): (r: seq<real>)
    requires denominator > 0
    ensures |r| == i + 1 && r[0] == 0.0
  {
    if i == 0 then [0.0] else Ramp(i - 1, denominator, scale) + [Fraction(i - 1, denominator, scale)]
  }

  lemma FractionBounds(k: nat, j: nat, denominator: nat, scale: real)
    requires k < j <= denominator && scale > 0.0
    ensures 0.0 < Fraction(k, denominator, scale) < Fraction(j, denominator, scale)
    ensures Fraction(k, denominator, scale) <= scale
  {
    var d := denominator as real;
    assert (k + 1) as real / d < (j + 1) as real / d;
    assert (k + 1) as real / d <= 1.0;
  }

  /** Comparing a scaled quotient with a bound, without the division. */
  lemma QuotientAtMost(a: real, d: real, scale: real, b: real)
    requires d > 0.0
    ensures a / d * scale <= b <==> a * scale <= b * d
  {
    var q := a / d;
    assert q * d == a;
    assert (q * scale) * d == a * scale;
  }

  lemma AppendKeepsIncreasing(s: seq<real>, x: real)
    requires Increasing(s) && (s == [] || s[|s| - 1] < x)
    ensures Increasing(s + [x])
  {
  }

  lemma AppendKeepsNonDecreasing(s: seq<real>, x: real)
    requires NonDecreasing(s) && (s == [] || s[|s| - 1] <= x)
    ensures NonDecreasing(s + [x])
  {
  }

  /** The loop's values rise strictly from 0; after i iterations the last one set
      is i / denominator * scale, and each is within (0, scale]. */
  lemma {:induction false} RampIncreasing(i: nat, denominator: nat, scale: real)
    requires 0 < denominator && i <= denominator && scale > 0.0
    ensures Increasing(Ramp(i, denominator, scale))
    ensures i > 0 ==> Ramp(i, denominator, scale)[i] == Fraction(i - 1, denominator, scale)
    ensures forall k :: 0 <= k <= i ==> Ramp(i, denominator, scale)[k] <= scale
  {
    if i > 0 {
      RampIncreasing(i - 1, denominator, scale);
      var prev := Ramp(i - 1, denominator, scale);
      if i > 1 {
        FractionBounds(i - 2, i - 1, denominator, scale);
      } else {
        FractionBounds(0, 1, denominator, scale);
      }
      FractionBounds(i - 1, i, denominator, scale);
      AppendKeepsIncreasing(prev, Fraction(i - 1, denominator, scale));
    }
  }

  /** A run that stopped after i iterations has shown a prefix of the values a run
      over j >= i iterations shows. */
  lemma {:induction false} RampPrefix(i: nat, j: nat, denominator: nat, scale: real)
    requires 0 < denominator && i <= j
    ensures Ramp(i, denominator, scale) <= Ramp(j, denominator, scale)
    decreases j - i
  {
    if i < j {
      RampPrefix(i, j - 1, denominator, scale);
    }
  }

  /** The values 0, 30, 60, 90, 100 that the single-file tools step through. */
  const FixedSteps: seq<real> := [0.0, 30.0, 60.0, 90.0, 100.0]

  lemma FixedStepsIncreasing()
    ensures Increasing(FixedSteps) && FixedSteps[0] == 0.0 && FixedSteps[|FixedSteps| - 1] == 100.0
  {
  }

  // ---------------------------------------------------------------------------
  // JavaScript primitives

  /** `a % b` in JavaScript: the remainder takes the sign of the dividend. */
  function JsRem(a: int, b: int): (r: int)
    requires b > 0
    ensures -b < r < b
    ensures a >= 0 ==> r == a % b
    ensures a <= 0 ==> r <= 0
  {
    if a >= 0 then a % b else -((-a) % b)
  }

  /** The pattern t starts at position i of s. */
  predicate OccursAt(s: string, t: string, i: int)
  {
    0 <= i && i + |t| <= |s| && s[i..i + |t|] == t
  }

  /** `s.includes(t)`: scans s from the left for an occurrence of t. */
  predicate Includes(s: string, t: string)
    decreases |s|
  {
    if |t| > |s| then false
    else if s[..|t|] == t then true
    else if |s| == 0 then false
    else Includes(s[1..], t)
  }

  lemma {:induction false} IncludesIffOccurs(s: string, t: string)
    ensures Includes(s, t) <==> exists i :: OccursAt(s, t, i)
    decreases |s|
  {
    if |t| > |s| {
      forall i ensures !OccursAt(s, t, i) { }
    } else if s[..|t|] == t {
      assert OccursAt(s, t, 0);
    } else if |s| == 0 {
    } else {
      IncludesIffOccurs(s[1..], t);
      if Includes(s[1..], t) {
        var i :| OccursAt(s[1..], t, i);
        assert s[1..][i..i + |t|] == s[i + 1..i + 1 + |t|];
        assert OccursAt(s, t, i + 1);
      } else {
        forall i | OccursAt(s, t, i) ensures false {
          if i > 0 {
            assert s[1..][i - 1..i - 1 + |t|] == s[i..i + |t|];
            assert OccursAt(s[1..], t, i - 1);
          }
        }
      }
    }
  }

  /** A text that includes t contains every character of t. */
  lemma IncludesOnlyOwnCharacters(s: string, t: string, c: char)
    requires c in t && c !in s
    ensures !Includes(s, t)
  {
    IncludesIffOccurs(s, t);
  }

  function Digit(d: nat): (c: char)
    requires d < 10
    ensures '0' <= c <= '9' && (c as int) - ('0' as int) == d
  {
    (('0' as int) + d) as char
  }

  /** The decimal rendering of a natural number, as in a template literal. */
  function DecimalString(n: nat): (s: string)
    ensures |s| >= 1
    ensures forall k :: 0 <= k < |s| ==> '0' <= s[k] <= '9'
  {
    if n < 10 then [Digit(n)] else DecimalString(n / 10) + [Digit(n % 10)]
  }

  lemma {:induction false} DecimalStringInjective(a: nat, b: nat)
    requires DecimalString(a) == DecimalString(b)
    ensures a == b
  {
    var sa, sb := DecimalString(a), DecimalString(b);
    if a < 10 && b < 10 {
      assert Digit(a) == sa[0] == sb[0] == Digit(b);
    } else if a >= 10 && b >= 10 {
      assert Digit(a % 10) == sa[|sa| - 1] == sb[|sb| - 1] == Digit(b % 10);
      assert DecimalString(a / 10) == sa[..|sa| - 1] == sb[..|sb| - 1] == DecimalString(b / 10);
      DecimalStringInjective(a / 10, b / 10);
    }
  }
}
