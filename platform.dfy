/**
 * Library routines of the .NET runtime that the source calls and whose
 * behaviour the model does not define. They are passed in as values, so every
 * property proved here holds whatever they do.
 */
module Platform {

  datatype Library = Library(
    /** `Uri.TryCreate(s, UriKind.Absolute, out _)` */
    isAbsoluteUri: string -> bool,
    /** `Guid.TryParse(s, out _)` */
    isGuid: string -> bool,
    /** `Convert.ToBase64String(Encoding.UTF8.GetBytes(s))` */
    base64OfUtf8: string -> string,
    /** `Path.GetInvalidFileNameChars()` */
    invalidFileNameChars: set<char>)
}
