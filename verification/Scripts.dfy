/** Scripts as the gate classifies them (internal/hitl/gate.go, Classify); the rules themselves are
    an arbitrary function. */
module Scripts {

  datatype Classification = Benign | Sensitive(reason: string)

  type Classifier = string -> Classification
}
