/** The records of the guide service in backend/src/models.rs. A section is
    the same record the front end edits (module Sections). */
module Models {
  import opened Options
  import opened Sections

  /** A 128-bit UUID. */
  newtype Uuid = x: int | 0 <= x < 0x1_0000_0000_0000_0000_0000_0000_0000_0000

  /** A UTC instant, counted in nanoseconds. */
  type Timestamp = int

  datatype Guide = Guide(
    id: Uuid,
    title: string,
    mainImage: string,
    tags: seq<string>,
    content: seq<Section>,
    createdAt: Timestamp,
    updatedAt: Timestamp)

  /** The body of a create request: everything but the id and the times. */
  datatype CreateGuideRequest = CreateGuideRequest(
    title: string,
    mainImage: string,
    tags: seq<string>,
    content: seq<Section>)

  /** The body of an update request: each field may be left out. */
  datatype UpdateGuideRequest = UpdateGuideRequest(
    title: Option<string>,
    mainImage: Option<string>,
    tags: Option<seq<string>>,
    content: Option<seq<Section>>)
}
