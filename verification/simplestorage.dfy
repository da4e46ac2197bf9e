/** The in-memory storage service: for each user id, a map from names to the marker "folder" or "file". */
module InMemoryStorage {
  import opened LocalFs

  /** A user's map, or the empty map a first access creates. */
  function Stored(s: map<string, map<string, string>>, userId: string): map<string, string>
  {
    if userId in s then s[userId] else map[]
  }

  class SimpleStorageService {
    var userStorage: map<string, map<string, string>>

    constructor ()
      ensures userStorage == map[]
    {
      userStorage := map[];
    }

    /** getUserStorage: the user's map, created empty on first access; other users are untouched. */
    method GetUserStorage(userId: string) returns (m: map<string, string>)
      modifies this
      ensures userStorage == old(userStorage)[userId := Stored(old(userStorage), userId)]
      ensures m == Stored(old(userStorage), userId)
    {
      if userId !in userStorage {
        userStorage := userStorage[userId := map[]];
      }
      m := userStorage[userId];
    }

    /** createFolder: marks `folderName` as a folder. */
    method CreateFolder(userId: string, folderName: string)
      modifies this
      ensures userStorage == old(userStorage)[userId := Stored(old(userStorage), userId)[folderName := "folder"]]
    {
      var m := GetUserStorage(userId);
      userStorage := userStorage[userId := m[folderName := "folder"]];
    }

    /** uploadFile: marks `remotePath` as a file; the local path is not read. */
    method UploadFile(userId: string, localFilePath: string, remotePath: string)
      modifies this
      ensures userStorage == old(userStorage)[userId := Stored(old(userStorage), userId)[remotePath := "file"]]
    {
      var m := GetUserStorage(userId);
      userStorage := userStorage[userId := m[remotePath := "file"]];
    }

    /** listFiles: exactly the names in the user's map; the path is not read. */
    method ListFiles(userId: string, path: string) returns (names: set<string>)
      modifies this
      ensures userStorage == old(userStorage)[userId := Stored(old(userStorage), userId)]
      ensures names == Stored(old(userStorage), userId).Keys
    {
      var m := GetUserStorage(userId);
      names := m.Keys;
    }

    /** deleteFile: removes that one name. */
    method DeleteFile(userId: string, filePath: string)
      modifies this
      ensures userStorage == old(userStorage)[userId := Stored(old(userStorage), userId) - {filePath}]
    {
      var m := GetUserStorage(userId);
      userStorage := userStorage[userId := m - {filePath}];
    }

    /** downloadFile: always the empty array, with no change. */
    method DownloadFile(userId: string, filePath: string) returns (bytes: seq<byte>)
      ensures bytes == []
    {
      bytes := [];
    }
  }
}
