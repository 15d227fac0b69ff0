/** The entry fields of the main window (tk `StringVar`s) that the lookups
    fill in and the tagging step reads. */
module Widgets {

  datatype Form = Form(title: string, artist: string, album: string, year: string, genre: string)
}
