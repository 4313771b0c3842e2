/** The agent's blocklist: patterns for company names and patterns for titles, each found wherever it
    occurs in the text, whatever the case. Companies are asked about first, and the first pattern that
    occurs is the one the reason names. Lower-casing is `str.lower`, which is a parameter here. */
module Blocklist {
  import opened Json

  datatype AgentBlocklist = AgentBlocklist(companies: seq<string>, titleKeywords: seq<string>, enabled: bool)

  /** `sub in text`. */
  predicate Contains(text: string, sub: string) {
    exists i :: 0 <= i <= |text| - |sub| && OccursAt(text, sub, i)
  }

  predicate OccursAt(text: string, sub: string, i: nat) {
    i + |sub| <= |text| && text[i..i + |sub|] == sub
  }

  /** The first pattern that occurs, or the number of patterns. */
  function FirstHit(patterns: seq<string>, text: string, lower: string -> string): (i: nat)
    ensures i <= |patterns| && (i < |patterns| ==> Contains(lower(text), lower(patterns[i])))
    ensures forall j :: 0 <= j < i ==> !Contains(lower(text), lower(patterns[j]))
  {
    if patterns == [] || Contains(lower(text), lower(patterns[0])) then 0 else
    var rest := FirstHit(patterns[1..], text, lower);
    assert forall j :: 0 < j < rest + 1 ==> patterns[j] == patterns[1..][j - 1];
    rest + 1
  }

  predicate Hits(patterns: seq<string>, text: string, lower: string -> string) {
    exists j :: 0 <= j < |patterns| && Contains(lower(text), lower(patterns[j]))
  }

  function Reason(bl: AgentBlocklist, company: string, title: string, lower: string -> string): (reason: Option<string>)
    ensures reason.Some? <==>
      bl.enabled && (Hits(bl.companies, company, lower) || Hits(bl.titleKeywords, title, lower))
  {
    var c, t := FirstHit(bl.companies, company, lower), FirstHit(bl.titleKeywords, title, lower);
    if !bl.enabled then None
    else if c < |bl.companies| then Some("company_blocklist:" + bl.companies[c])
    else if t < |bl.titleKeywords| then Some("title_blocklist:" + bl.titleKeywords[t])
    else None
  }

  /** `check`: companies first, then title keywords, in the order of the lists. */
  method Check(bl: AgentBlocklist, company: string, title: string, lower: string -> string) returns (reason: Option<string>)
    ensures reason == Reason(bl, company, title, lower)
  {
    if !bl.enabled {
      return None;
    }
    var companyLower, titleLower := lower(company), lower(title);
    for i := 0 to |bl.companies|
      invariant i <= FirstHit(bl.companies, company, lower)
    {
      if Contains(companyLower, lower(bl.companies[i])) {
        return Some("company_blocklist:" + bl.companies[i]);
      }
    }
    for i := 0 to |bl.titleKeywords|
      invariant i <= FirstHit(bl.titleKeywords, title, lower)
    {
      if Contains(titleLower, lower(bl.titleKeywords[i])) {
        return Some("title_blocklist:" + bl.titleKeywords[i]);
      }
    }
    return None;
  }

  /** The first pattern that occurs. */
  predicate IsFirstHit(patterns: seq<string>, i: nat, text: string, lower: string -> string) {
    && i < |patterns| && Contains(lower(text), lower(patterns[i]))
    && forall j :: 0 <= j < i ==> !Contains(lower(text), lower(patterns[j]))
  }

  /** The reason names the first company pattern that occurs; only when none does, the first title pattern. */
  lemma TheReasonNamesThePattern(bl: AgentBlocklist, i: nat, company: string, title: string, lower: string -> string)
    requires bl.enabled
    ensures IsFirstHit(bl.companies, i, company, lower) ==>
      Reason(bl, company, title, lower) == Some("company_blocklist:" + bl.companies[i])
    ensures IsFirstHit(bl.titleKeywords, i, title, lower) && !Hits(bl.companies, company, lower) ==>
      Reason(bl, company, title, lower) == Some("title_blocklist:" + bl.titleKeywords[i])
  {
    hide Contains;
  }

  /** A longer list never lets through what a shorter one blocks, and an empty pattern blocks everything. */
  lemma MorePatternsBlockMore(bl: AgentBlocklist, more: seq<string>, company: string, title: string, lower: string -> string)
    requires bl.enabled
    ensures Reason(bl, company, title, lower).Some? ==> Reason(bl.(companies := bl.companies + more), company, title, lower).Some?
    ensures "" in more && lower("") == "" ==> Reason(bl.(companies := bl.companies + more), company, title, lower).Some?
  {
    var all := bl.companies + more;
    assert forall j :: 0 <= j < |bl.companies| ==> all[j] == bl.companies[j];
    assert forall j :: 0 <= j < |more| ==> all[|bl.companies| + j] == more[j];
    if "" in more && lower("") == "" {
      var j :| 0 <= j < |more| && more[j] == "";
      assert OccursAt(lower(company), "", 0);
      assert Contains(lower(company), lower(all[|bl.companies| + j]));
    }
  }
}
