/** The digest domains in use, as the bytes of their names. */
module Domains {
  import opened Prelude

  const ACTION_KEY: Bytes := Ascii("rabs.action-key.sha256.v1")

  const DESCRIPTOR: Bytes := Ascii("rabs.descriptor.sha256.v1")

  const BUNDLE_ROOT: Bytes := Ascii("rabs.artifact-bundle-root.v1")

  const CONTENT: Bytes := Ascii("rabs.object.sha256.v1")

  const SEMANTIC: Bytes := Ascii("rabs.semantic-result-projection.sha256.v1")

  const OBSERVABLE: Bytes := Ascii("rabs.observable-result-projection.sha256.v1")
}
