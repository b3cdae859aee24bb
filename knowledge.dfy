/** The record shape of a retrievable chunk and the fixed corpus that stands
    in for the vector store. */
module Knowledge {

  /** A chunk of retrievable text with its provenance label. The score is
      kept in integer hundredths: 95 stands for 0.95. */
  datatype DocumentChunk = DocumentChunk(id: string, source: string, content: string, score: int)

  /** The five chunks of the built-in knowledge base, in corpus order, each
      with the score stored beside it. */
  const KnowledgeBase: seq<DocumentChunk> := [HssRunbook, IncidentPolicy, CoreLayout, OpticalScript, GdprCompliance]

  // The runbook's content is written as its opening words and the rest so
  // that proofs can look into the opening; the string is the same.
  const HssRunbookOpening: string := "If HSS" + " returns error" + " 5003"
  const HssRunbookRest: string := " (Database Lock), first verify the SCTP association status. If down, attempt a soft restart of the diameter stack using command `service diameter-stack restart`. Do not hard reset the node unless traffic is below 10%."

  const HssRunbook: DocumentChunk := DocumentChunk(
    "doc-1",
    "Runbook: HSS Troubleshooting v2.1",
    HssRunbookOpening + HssRunbookRest,
    95)

  const IncidentPolicy: DocumentChunk := DocumentChunk(
    "doc-2",
    "Policy: Incident Management Level 1",
    "All critical network incidents affecting >1000 users must be reported to the NOC Supervisor within 15 minutes. Use ticket template INC-CRITICAL.",
    88)

  const CoreLayout: DocumentChunk := DocumentChunk(
    "doc-3",
    "Architecture: 5G Core Layout",
    "The 5G Core is deployed on Kubernetes clusters across 3 Availability Zones. The UPF (User Plane Function) handles data forwarding. N4 interface connects SMF and UPF.",
    82)

  const OpticalScript: DocumentChunk := DocumentChunk(
    "doc-4",
    "Script: Optical Diagnostic",
    "The Python script `opt_diag.py` connects to the OLT via SSH. It expects environment variables OLT_HOST and OLT_USER. It retrieves attenuation levels for all ONUs.",
    91)

  const GdprCompliance: DocumentChunk := DocumentChunk(
    "doc-5",
    "Compliance: GDPR Data Handling",
    "Customer Identifiable Information (CII) must not be stored in raw text logs. All CDRs exported to the Data Lake must be hashed using SHA-256 with a daily rotating salt.",
    85)

  /** No two chunks share an id. */
  predicate DistinctIds(xs: seq<DocumentChunk>) {
    forall i, j :: 0 <= i < j < |xs| ==> xs[i].id != xs[j].id
  }

  lemma KnowledgeBaseIdsDistinct()
    ensures DistinctIds(KnowledgeBase)
  {
  }
}
