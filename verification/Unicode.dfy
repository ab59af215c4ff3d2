/** What is used of transliteration and of Unicode normalisation: both leave ASCII text alone, and
    normalising twice is normalising once. */
module Unicode {

  predicate Ascii(s: string) {
    forall i :: 0 <= i < |s| ==> s[i] as int < 128
  }

  ghost predicate KeepsAscii(f: string -> string) {
    forall s: string :: Ascii(s) ==> f(s) == s
  }

  ghost predicate IsNormalForm(f: string -> string) {
    KeepsAscii(f) && forall s: string :: f(f(s)) == f(s)
  }

  /** The transliteration `unidecode`. */
  type Unidecode = f: string -> string | KeepsAscii(f) ghost witness (s: string) => s

  /** `unicodedata.normalize("NFC", s)` */
  type Nfc = f: string -> string | IsNormalForm(f) ghost witness (s: string) => s
}
