/**
 * Elements as the scripts see them after ElementTree has parsed a file: only the two
 * attributes they read, each as `Element.get` returns it.
 */
module Xml {
  import opened Wrappers

  /** An XML attribute as ElementTree's `get` returns it. */
  type Attribute = Option<string>

  /** Python tests an attribute for truthiness: an empty value counts as absent. */
  predicate Present(a: Attribute) {
    a.Some? && a.value != ""
  }

  /**
   * A `PackageVersion`, `PackageReference` or `package` element: the attribute naming the
   * package (`Include`, or `id` in `packages.config`) and its `Version` (`version`) attribute.
   */
  datatype Element = Element(name: Attribute, version: Attribute)
}
