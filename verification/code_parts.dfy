/**
 * The two fields both catalog scripts derive from an ICD-10-CM code:
 * its first letter and its three-character category.
 */
module CodeParts {
  /** `code[0]`, as a one-character string. */
  function FirstLetter(code: string): string
    requires code != ""
  {
    code[..1]
  }

  /** `code[:3] if len(code) >= 3 else code`. */
  function Category(code: string): string {
    if |code| >= 3 then code[..3] else code
  }

  /** The category is the code's prefix of length three, or the whole code when it is shorter. */
  lemma CategoryIsPrefix(code: string)
    ensures |Category(code)| == if |code| < 3 then |code| else 3
    ensures Category(code) <= code
    ensures code != "" ==> FirstLetter(code) <= Category(code)
  {
  }
}
