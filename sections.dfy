/** A section of a travel guide: its kind (always `"section"` in the front
    end), its title and its Markdown body. The same record is the `Section` of
    backend/src/models.rs, where the kind is serialized as `type`. */
module Sections {
  datatype Section = Section(kind: string, title: string, content: string)
}
