/** The part of the local file system the services touch: files by path and directories. */
module Files {
  import opened Wrappers
  import opened Errors

  /** The pixels of a generated image, left opaque. */
  datatype Image = Image(id: nat)

  datatype FileContent = TextFile(text: string) | ImageFile(image: Image)

  /** `Path.read_text()` of an existing file: binary content does not decode. */
  function TextOf(c: FileContent): Result<string, Exc> {
    match c
    case TextFile(t) => Ok(t)
    case ImageFile(_) => Err(LibraryError("read_text"))
  }

  /** `Path(dir) / name` for a single-component `name`. */
  function PathJoin(dir: string, name: string): string {
    dir + "/" + name
  }

  class FileSystem {
    var files: map<string, FileContent>
    var dirs: set<string>

    constructor (files: map<string, FileContent>, dirs: set<string>)
      ensures this.files == files && this.dirs == dirs
    {
      this.files := files;
      this.dirs := dirs;
    }

    /** `Path(path).mkdir(parents=True, exist_ok=True)`. */
    method MakeDirs(path: string)
      modifies this
      ensures dirs == old(dirs) + {path} && files == old(files)
    {
      dirs := dirs + {path};
    }

    /** Writing a whole file: `image.save(path)`, or opening with "w" and writing. */
    method Write(path: string, content: FileContent)
      modifies this
      ensures files == old(files)[path := content] && dirs == old(dirs)
    {
      files := files[path := content];
    }

    /** `Path.exists()`. */
    method Exists(path: string) returns (b: bool)
      ensures b <==> path in files
    {
      b := path in files;
    }

    /** `Path.read_text(encoding="utf-8")`. */
    method ReadText(path: string) returns (r: Result<string, Exc>)
      requires path in files
      ensures r == TextOf(files[path])
    {
      r := TextOf(files[path]);
    }

    /** `os.remove(path)`: a missing file raises FileNotFoundError. */
    method Remove(path: string) returns (r: Result<(), Exc>)
      modifies this
      ensures dirs == old(dirs)
      ensures path in old(files) ==> r == Ok(()) && files == old(files) - {path}
      ensures path !in old(files) ==> r == Err(FileNotFoundError(path)) && files == old(files)
    {
      if path in files {
        files := files - {path};
        r := Ok(());
      } else {
        r := Err(FileNotFoundError(path));
      }
    }
  }
}
