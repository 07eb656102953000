/**
  Rows of the backend's tables and the browser's `File` objects, as the
  pages and route handlers read them.
 */
module Records {
  import opened JsValue

  /** A row of the `videos` table. `videoSource` is "upload" or "link" for rows the upload route writes. */
  datatype Video = Video(
    id: string,
    title: string,
    description: Option<string>,
    videoUrl: string,
    videoSource: string,
    fileSize: Option<int>,
    userId: string,
    createdAt: string)

  /** A row of the `profiles` table. */
  datatype Profile = Profile(
    userId: string,
    displayName: string,
    bio: Option<string>,
    photoUrl: Option<string>,
    updatedAt: Option<string>)

  /** A browser `File`: its name, MIME type and size in bytes. */
  datatype FileInfo = FileInfo(name: string, mimeType: string, size: int)

  /** The signed-in user as the authentication service reports it. */
  datatype AuthUser = AuthUser(id: string, email: Option<string>)

  /**
    The multipart form the upload page posts to the upload route: each
    field is absent (`formData.get` gives null) unless the page appended it.
   */
  datatype UploadForm = UploadForm(
    mode: Option<string>,
    title: Option<string>,
    description: Option<string>,
    file: Option<FileInfo>,
    videoUrl: Option<string>)

  /** The multipart form the sign-up and profile pages post to the profile route. */
  datatype ProfileForm = ProfileForm(
    displayName: Option<string>,
    bio: Option<string>,
    photo: Option<FileInfo>)
}
