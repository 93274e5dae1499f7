/**
 * The `energy` branch used as a key-value store of reports (index.js:113-132
 * and 176-197): the report for commit `sha` lives at `.energy/<sha>.json`.
 * The branch is a map from path to the parsed JSON content, where None is a
 * stored JSON `null` (what `commitReport` writes when no report was read).
 * A stored report whose numbers are JSON `null` is not part of this model.
 */
module ReportStore {
  import opened Wrappers
  import opened Aggregation

  type Store = map<string, Option<EnergyReport>>

  const ReportDir: string := ".energy/"
  const ReportExt: string := ".json"

  /** The path of the report for a commit, the same on write and on read. */
  function ReportPath(sha: string): (p: string)
    ensures |p| == |ReportDir| + |sha| + |ReportExt|
    ensures p[..|ReportDir|] == ReportDir && p[|p| - |ReportExt|..] == ReportExt
    ensures p[|ReportDir|..|p| - |ReportExt|] == sha
  {
    ReportDir + sha + ReportExt
  }

  /** Different commits never share a report path. */
  lemma ReportPathInjective(a: string, b: string)
    requires ReportPath(a) == ReportPath(b)
    ensures a == b
  {
    var p := ReportPath(a);
    assert a == p[|ReportDir|..|p| - |ReportExt|];
  }

  /** `commitReport`: writes the report at the commit's path; a failed write is
      swallowed and leaves the branch as it was. */
  function CommitReport(store: Store, sha: string, report: Option<EnergyReport>, written: bool): (s: Store)
    ensures s.Keys == if written then store.Keys + {ReportPath(sha)} else store.Keys
    ensures written ==> s[ReportPath(sha)] == report
    ensures !written ==> s == store
    ensures forall p :: p in store && p != ReportPath(sha) ==> s[p] == store[p]
  {
    if written then store[ReportPath(sha) := report] else store
  }

  /** `getMeasurementsFromRepo`: the parsed report at the commit's path, or None
      when there is none (or it holds JSON `null`). */
  function FetchReport(store: Store, sha: string): (r: Option<EnergyReport>)
    ensures ReportPath(sha) !in store ==> r.None?
    ensures ReportPath(sha) in store ==> r == store[ReportPath(sha)]
  {
    if ReportPath(sha) in store then store[ReportPath(sha)] else None
  }

  /** Reading back a commit's report right after writing it gives what was
      written; every other commit's report is unaffected by the write. */
  lemma FetchAfterCommit(store: Store, sha: string, other: string, report: Option<EnergyReport>)
    ensures FetchReport(CommitReport(store, sha, report, true), other)
            == if other == sha then report else FetchReport(store, other)
  {
    if other != sha {
      if ReportPath(other) == ReportPath(sha) {
        ReportPathInjective(other, sha);
      }
    }
  }
}
