/** The record shapes of types.ts. */
module Types {

  /** One image of the shared folder, as the gallery keeps it: the three
      fields the listing call copies. The optional `thumbnailLink` and
      `webContentLink` of the interface are never filled in by the core. */
  datatype DriveFile = DriveFile(id: string, name: string, mimeType: string)
}
