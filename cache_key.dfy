/**
 * The request fingerprint of `my-resume-tool/api/analyze.js` (`makeCacheKey`):
 * the resume, a fixed separator line, and the job description.
 */
module CacheKey {

  /** The separator placed between the two texts: a line holding three dashes. */
  const Separator: string := "\n---\n"

  /**
   * The fingerprint is the resume, then the separator, then the job description:
   * each part can be read back at its own position.
   */
  function MakeCacheKey(resume: string, jobDescription: string): (key: string)
    ensures |key| == |resume| + |Separator| + |jobDescription|
    ensures key[..|resume|] == resume
    ensures key[|resume|..|resume| + |Separator|] == Separator
    ensures key[|resume| + |Separator|..] == jobDescription
    ensures key != ""
  {
    resume + Separator + jobDescription
  }

  /** Two requests whose resumes have the same length share a key only if they are the same request. */
  lemma KeyInjectiveForSameResumeLength(r1: string, j1: string, r2: string, j2: string)
    requires |r1| == |r2|
    requires MakeCacheKey(r1, j1) == MakeCacheKey(r2, j2)
    ensures r1 == r2 && j1 == j2
  {
  }

  /**
   * The concatenation is not injective: a resume that ends with the separator and one
   * that does not, paired with suitable job descriptions, produce the same key.
   */
  lemma DistinctRequestsCanShareKey()
    ensures ("a\n---\n", "b") != ("a", "\n---\nb")
    ensures MakeCacheKey("a\n---\n", "b") == MakeCacheKey("a", "\n---\nb")
  {
  }

  /** Swapping two different non-blank texts can keep the key. */
  lemma SwappedTextsCanShareKey()
    ensures "x" != "x\n---\nx"
    ensures MakeCacheKey("x", "x\n---\nx") == MakeCacheKey("x\n---\nx", "x")
  {
  }
}
