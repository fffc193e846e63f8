/** The rows of the database schema. Timestamps, password hashes, S3 keys and sizes are left out. */
module Models {
  import opened Common

  datatype User = User(email: string, name: string)

  /** `parent == None` means the folder sits at its owner's root. */
  datatype Folder = Folder(owner: Uuid, parent: Option<Uuid>, name: string)

  /** `folder == None` means the photo sits at its owner's root. */
  datatype Photo = Photo(owner: Uuid, folder: Option<Uuid>, filename: string, mimeType: string)

  /** A share row names one resource (folder or photo) and the user it is shared with. */
  datatype Grant = Grant(resource: Uuid, grantee: Uuid)

  /** The column default of `SharedFolder.can_delete`. */
  const CanDeleteDefault := false
}
