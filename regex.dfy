/** The regular-expression engine is not modelled. A pattern is known by its
    source text, and a search over a subject string is a function supplied by
    the caller; every scanner in this model takes it as a parameter. Phrases
    without metacharacters are scanned concretely instead (see Strings). */
module Regex {
  import opened Wrappers

  /** One match of a pattern: its span in the subject and its groups, where
      groups[0] is the whole match and groups[k] the k-th capture group that
      took part in the match. */
  datatype Match = Match(start: nat, end: nat, groups: seq<string>)
  {
    /** match.group(k); a group that is absent reads as the empty string. */
    function Group(k: nat): (g: string)
      ensures k < |groups| ==> g == groups[k]
    {
      if k < |groups| then groups[k] else ""
    }

    /** match.lastindex is set and at least 1: some capture group took part. */
    predicate HasCapture() { |groups| >= 2 }
  }

  /** re.search(pattern, subject, re.IGNORECASE): the leftmost match, if any. */
  type Searcher = (string, string) -> Option<Match>

  /** re.finditer(pattern, subject, re.IGNORECASE): the matches in order. */
  type Scanner = (string, string) -> seq<Match>

  /** re.sub(pattern, replacement, subject): the subject with every match replaced. */
  type Substituter = (string, string, string) -> string
}
