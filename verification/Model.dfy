/** The reconciler's entities. */
module Model {
  import Declared = Computed

  type EnvId = nat
  type AssignmentId = nat
  type Labels = map<string, string>

  datatype Dependency = Dependency(allOf: seq<string>, anyOf: seq<string>)

  datatype Feature = Feature(name: string, version: string, chart: string, dependencies: seq<Dependency>,
                             values: Declared.Values)

  datatype Assignment = Assignment(id: AssignmentId, feature: Feature, target: Labels, created: int)

  datatype Environment = Environment(id: EnvId, name: string, tenantName: string, kind: string, labels: Labels)

  /** What the logs and views are keyed by: an environment and a feature name. */
  datatype Pair = Pair(environment: EnvId, feature: string)

  /** labelsContain and targetMatchesLabels: Go reads a missing label as "". */
  predicate LabelsContain(envLabels: Labels, target: Labels) {
    forall k :: k in target ==> (if k in envLabels then envLabels[k] else "") == target[k]
  }

  /** More target labels win; with equally many, the later one. */
  predicate IsMoreSpecific(candidate: Labels, existing: Labels, candidateCreated: int, existingCreated: int) {
    |candidate| > |existing| || (|candidate| == |existing| && candidateCreated > existingCreated)
  }

  predicate Beats(a: Assignment, b: Assignment) {
    IsMoreSpecific(a.target, b.target, a.created, b.created)
  }
}
